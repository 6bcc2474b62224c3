# rocksdb-table, modelled in Dafny

`rocksdb-table` is a typed layer over the RocksDB key-value store. An *entry*
type says how its keys and values become bytes and back, whether it lives in a
named column family (a *partition*) or in the default one, and whether the
partition carries an associative merge operator. On top of that the crate
offers point lookups, batched lookups, ordered scans of a whole partition,
prefix scans driven by an *index* (a fixed-width prefix of the key bytes),
selective scans that decode a value only when a predicate accepts its key,
and inserts, over three back ends: a plain database, a transactional
database and a transaction. `DatabaseOptions` collects the column families
that entries need, and `Database` opens the engine in read-only, writeable or
transactional mode. The crate also carries a draft rework (`src/rework/`), a
`Table` trait with a compile-time prefix width, a `NamedTable` handle and a
`Database` generic over four open modes. That draft is modelled here too,
although the crate root does not declare it as a module.

The model replaces RocksDB by an abstract store: a default partition plus a
map from column-family name to partition. A partition is a sequence of
`(key, value)` byte pairs kept in strictly increasing byte order. A write is
an ordered upsert, a cursor yields the pairs in order, and a prefix scan
yields exactly the pairs whose key starts with the prefix. Codec functions
are total functions returning `Result`. An entity is a `Row(key, value)`.

Modules, following the crate's files:

- `Wrappers`, `Bytes`, `Errors`: Option/Result/Either, byte order and
  big-endian numbers, and the error values.
- `Engine`: the abstract store.
- `Entries` (`src/entry.rs`), `Modes` (`src/mode.rs`), `Iter` (`src/iter.rs`),
  `Access` (`src/access.rs`), `Lib` (`DatabaseOptions` in `src/lib.rs`),
  `Db` (`src/db.rs`).
- `EncodingLaws`: what a lawful codec is (it inverts, and its key bytes sort
  like its keys), and what writing, scanning and prefix-scanning encoded rows
  then means. The test suites rely on all of it.
- `TestCodecs`, `SortDedup` and `LibTests`: the test module of `src/lib.rs`.
  They hold the `Score` and `Simple` entries, `sort_and_dedup`, `filter_left`
  and the four property tests, written as methods over all inputs.
- `ReworkMode` (`src/rework/mode.rs`), `ReworkIterators`
  (`src/rework/iterators.rs`) and `Rework` (`src/rework/mod.rs`).
- `ReworkTests`: the `CountsDb` table, `add_u64` and the `db` test of
  `src/rework/mod.rs`.

## Model

| member | source | states |
|---|---|---|
| Wrappers.CollectResults | src/lib.rs:130 | collecting a sequence of results succeeds iff every item is `Ok`, and then gives their values in order; otherwise the error is that of the first failing item |
| Bytes.BEOrder | src/lib.rs:254-259 | fixed-width big-endian encoding preserves and reflects numeric order under RocksDB's byte order |
| Bytes.FromToBE | src/lib.rs:265-279 | decoding a fixed-width big-endian encoding gives the number back |
| Bytes.LessIsStrictTotalOrder | src/access.rs:162-175 | the engine's byte order is irreflexive, transitive and total |
| Engine.Get | src/access.rs:52-63 | a point read finds a value iff the key is stored, and then returns the stored value |
| Engine.PutAsMap | src/access.rs:199-215 | a write maps the key to the new value and leaves every other key as it was |
| Engine.PutOrdered | src/access.rs:199-215 | a write keeps the partition in strictly increasing key order |
| Engine.Cursor | src/access.rs:162-175 | a start cursor yields every stored pair, in order |
| Engine.WithPrefix | src/access.rs:113-131 | a prefix scan yields exactly the stored pairs whose key has the prefix, in order |
| Engine.WithPrefixEmpty | src/access.rs:113-131 | a prefix scan with the empty prefix yields the whole partition |
| Engine.MultiGet | src/access.rs:93-108 | a batched read answers each key as a point read would |
| Entries.WithDefaults | src/entry.rs:13-19 | an entry that overrides nothing lives in the default partition and has no merge operator |
| Iter.DecodeEntry | src/iter.rs:24-35 | a cursor error passes through; a key that does not decode is the error whatever the value bytes are; then a value that does not decode gives the value decoder's error; the item decodes iff both key and value decode |
| Iter.KeyErrorIgnoresValue | src/iter.rs:24-35 | when the key does not decode, the value bytes do not affect the result |
| Iter.DecodeSelected | src/iter.rs:60-75 | the key is decoded first; a rejected key is returned alone, an accepted one yields the full decode |
| Iter.RejectedNeverFails | src/iter.rs:60-75 | a key the predicate rejects never fails on its value bytes |
| Iter.AcceptedIsFullDecode | src/iter.rs:60-75 | for an accepted key the selective decode succeeds or fails exactly as the full decode does |
| Iter.EntryIterator.Next | src/iter.rs:24-35 | consumes exactly one cursor item per call and yields its decode; returns `None` exactly when the cursor is exhausted |
| Iter.SelectedEntryIterator.Next | src/iter.rs:60-75 | consumes one cursor item per call and yields its selective decode; `None` exactly at exhaustion |
| Access.Resolve | src/access.rs:48-50 | an entry without a name reads the default partition; a named one reads its column family, or fails with `InvalidCfName` when the database has none of that name |
| Access.DefaultNameIsDefaultPartition | src/entry.rs:13-15 | an entry with the default name resolves to the default partition |
| Access.DecodeFound | src/access.rs:52-63 | an engine error passes through, a missing key gives `None`, stored bytes give the value decoder's result |
| Access.LookupEntry | src/access.rs:43-65 | the key is encoded first; the plain database reads the entry's partition, the transactional back ends always read the default one (`get_pinned`) |
| Access.TransactionalLookupIgnoresName | src/access.rs:220-227 | on a transactional database and a transaction a point lookup does not depend on the entry's name |
| Access.EncodeKeys | src/access.rs:71-91 | batch key encoding succeeds iff every key encodes; the error is that of the first failing key |
| Access.DecodeAll | src/access.rs:71-91 | batch value decoding succeeds iff every answer decodes, with the answers in key order; otherwise the error is that of the first slot that fails |
| Access.LookupEntries | src/access.rs:67-111 | a missing column family fails first, then a key that does not encode; a successful answer has one item per key |
| Access.BatchAgreesWithPointReads | src/access.rs:67-111 | a batched lookup succeeds iff every point lookup of the plain database does, and then returns their answers in order; once the partition resolves and the keys encode, its error is that of the first failing point lookup |
| Access.IndexCursor | src/access.rs:113-131 | an index scan of an unknown partition fails; otherwise it yields exactly the pairs whose key starts with the index bytes, in order |
| Access.StartCursor | src/access.rs:162-175 | a full scan of an unknown partition fails; otherwise it is the cursor over the whole partition |
| Access.ZeroWidthIndexScansAll | src/entry.rs:32-41 | a zero-width index, which the main layer does not reject, scans the whole partition |
| Access.Write | src/access.rs:199-215 | a write replaces the entry's partition and leaves all others alone |
| Access.InsertEntry | src/access.rs:199-215 | an insert encodes the key, then the value, then resolves the partition, failing at the first step that fails; on success only that partition changes |
| Access.InsertKeepsOrder | src/access.rs:199-215 | an insert keeps every partition in key order |
| Access.LookupAfterInsert | src/access.rs:43-65 | after an insert, the plain database, or any back end for an unnamed entry, finds the inserted value under its key |
| Access.LookupOtherKeyAfterInsert | src/access.rs:43-65 | an insert does not change the lookup of any key with other key bytes |
| Access.TransactionalLookupMissesNamedWrite | src/access.rs:361-376 | on the transactional back ends a point lookup of a named entry does not see that entry's own insert |
| Access.Handle.Insert | src/access.rs:199-215 | the store becomes the result of the insert on success and is unchanged on error |
| Access.Handle.LookupEntriesByIndex | src/access.rs:113-131 | returns a fresh iterator over the index scan, or the partition error |
| Access.Handle.LookupSelectedEntriesByIndex | src/access.rs:133-160 | returns a fresh selective iterator over the index scan, or the partition error |
| Access.Handle.IterEntries | src/access.rs:162-175 | returns a fresh iterator over the whole partition, or the partition error |
| Access.Handle.IterSelectedEntries | src/access.rs:177-197 | returns a fresh selective iterator over the whole partition, or the partition error |
| Access.NewTransaction | src/access.rs:385-391 | a transaction starts from the transactional database's current store |
| Modes.WriteableIsNotReadOnly | src/mode.rs:14-26 | exactly one of the two modes is read-only, and `Writeable` is the writeable one |
| Lib.SortedNames | src/lib.rs:24-29 | the column-family names are listed once each, in increasing order |
| Lib.Describe | src/lib.rs:24-29 | each descriptor pairs a name with that column family's options |
| Lib.ColumnFamilies | src/lib.rs:24-29 | one descriptor per configured column family, carrying its options, each name once and in order; none exactly when nothing is configured |
| Lib.DescribeCovers | src/lib.rs:24-29 | describing a listing of all the names covers every configured column family |
| Lib.ColumnFamiliesDistinct | src/lib.rs:24-29 | no column family is described twice |
| Lib.Add | src/lib.rs:31-47 | a named entry adds its column family, with the merge operator when it has one; an unnamed entry sets the merge operator on the database options; nothing else changes |
| Lib.AddIdempotent | src/lib.rs:31-47 | adding the same entry twice is the same as adding it once |
| Lib.AddCommutes | src/lib.rs:31-47 | adding two entries with different names commutes |
| Lib.AddIndexed | src/lib.rs:49-62 | like `Add`, and the entry's partition also gets a fixed-prefix extractor of the index width |
| Lib.AddIndexedIdempotent | src/lib.rs:49-62 | adding the same indexed entry twice is the same as adding it once |
| Lib.Default | src/lib.rs:65-76 | default options create the database and missing column families, set no extractor or merge operator, and list no column family |
| Db.OpenCall | src/db.rs:67-92 | read-only mode opens read-only, failing if a log file exists, and other modes open read-write; descriptors are passed iff some column family is configured |
| Db.OpenTransactionalCall | src/db.rs:94-118 | a transactional open with the configured options and descriptors, passed iff there are any |
| Db.OpenCallDetermined | src/db.rs:67-92 | those properties fix the engine call completely |
| Db.FreshStore | src/db.rs:67-92 | a fresh database has an empty default partition and an empty partition per descriptor, and no other |
| Db.Database.Lookup | src/db.rs:23-25 | forwards to the lookup of its back end |
| Db.Database.MultiLookup | src/db.rs:27-32 | forwards to the batched lookup |
| Db.Database.LookupIndex | src/db.rs:34-39 | forwards to the index scan |
| Db.Database.LookupIndexSelected | src/db.rs:41-47 | forwards to the selective index scan |
| Db.Database.Iter | src/db.rs:49-51 | forwards to the full scan |
| Db.Database.IterSelected | src/db.rs:53-58 | forwards to the selective full scan |
| Db.Database.Insert | src/db.rs:61-65 | only a writeable database inserts; it forwards to its back end |
| Db.Database.Transaction | src/db.rs:120-122 | only a writeable transactional database opens transactions, which start from its store |
| Db.Open | src/db.rs:67-92 | makes exactly the engine call `OpenCall` describes and wraps the resulting store, or returns the engine's error |
| Db.OpenTransactional | src/db.rs:94-118 | the same for the transactional open |
| EncodingLaws.KeyBytesInjective | src/entry.rs:25-29 | a lawful codec gives distinct keys distinct bytes |
| EncodingLaws.LawfulOrder | src/entry.rs:25-29 | a key order that the key bytes follow is a strict total order |
| EncodingLaws.LastWinsAppend | src/lib.rs:99-115 | the last-write-wins view of a concatenation is that of the first part overridden by that of the second |
| EncodingLaws.LastWinsKeys | src/lib.rs:99-115 | the last-write-wins view has exactly the keys written |
| EncodingLaws.UpsertSorted | src/access.rs:199-215 | an ordered upsert keeps rows strictly sorted |
| EncodingLaws.UpsertLastWins | src/access.rs:199-215 | an ordered upsert maps its key to the new value |
| EncodingLaws.UpsertFoldSpec | src/lib.rs:121-133 | inserting rows one by one leaves them strictly sorted, with each key's last value |
| EncodingLaws.SortedRowsUnique | src/lib.rs:99-115 | two strictly sorted row sequences with the same last-write-wins view are equal |
| EncodingLaws.Encode | src/access.rs:199-215 | encoding rows gives one byte pair per row, in the same order |
| EncodingLaws.SortedEncodesOrdered | src/access.rs:199-215 | sorted rows encode to an ordered partition |
| EncodingLaws.PutEncode | src/access.rs:199-215 | writing a row's bytes into encoded rows is encoding the upserted rows |
| EncodingLaws.CursorRoundTrip | src/iter.rs:24-35 | scanning encoded rows decodes them all back, in order |
| EncodingLaws.FilterRows | src/lib.rs:135-180 | filtering keeps exactly the rows that pass |
| EncodingLaws.PrefixScanEncode | src/access.rs:113-131 | a prefix scan of encoded rows is the encoding of the rows whose key bytes have the prefix |
| TestCodecs.ScoreKeyToBytes | src/lib.rs:254-259 | a score key is 6 bytes, the big-endian `u16` then the `u32` |
| TestCodecs.ScoreValueToBytes | src/lib.rs:261-263 | a score value is the 8 big-endian bytes of its two's-complement `i64` |
| TestCodecs.ScoreBytesToKeyAsWritten | src/lib.rs:265-279 | the decoder as written panics on fewer than 6 bytes and succeeds otherwise |
| TestCodecs.ScoreBytesToKey | src/lib.rs:265-279 | the corrected decoder fails with `InvalidValue` exactly on fewer than 6 bytes, agrees with the written one elsewhere, and inverts the encoder on the first 6 bytes |
| TestCodecs.ScoreBytesToValueAsWritten | src/lib.rs:281-287 | the decoder as written panics on fewer than 8 bytes |
| TestCodecs.ScoreBytesToValue | src/lib.rs:281-287 | the corrected decoder fails exactly on fewer than 8 bytes and inverts the encoder |
| TestCodecs.ScoreDecodersPanicOnShortInput | src/lib.rs:265-287 | a 1-byte key and a 7-byte value make the written decoders panic; the corrected ones report `InvalidValue` |
| TestCodecs.ScoreEntry | src/lib.rs:234-236 | scores live in the column family `scores` with no merge operator |
| TestCodecs.ScoreIndex | src/lib.rs:293-295 | the index of a score is its `id` |
| TestCodecs.ScoreIndexToBytes | src/lib.rs:290-300 | the index is the 2 big-endian bytes of the `u16` |
| TestCodecs.ScoreIndexFixedWidth | src/lib.rs:290-300 | every index encodes to exactly 2 bytes, and 2 is non-zero |
| TestCodecs.ScoreIndexIsKeyPrefix | src/lib.rs:290-300 | a score's index bytes are the first 2 bytes of its key bytes |
| TestCodecs.ScorePrefixSelectsIndex | src/lib.rs:290-300 | a score's key bytes start with an index's bytes iff that is the score's index |
| TestCodecs.ScoreCodecLawful | src/lib.rs:254-287 | the score codec inverts and its key bytes sort like the keys |
| TestCodecs.ScoreKeyOrder | src/lib.rs:254-259 | lexicographic `(u16, u32)` order is exactly byte order of the key encoding |
| TestCodecs.SimpleKeyToBytes | src/lib.rs:333-335 | a simple key is its 2 big-endian bytes |
| TestCodecs.SimpleValueToBytes | src/lib.rs:337-339 | a simple value is stored as its own bytes, unchanged |
| TestCodecs.SimpleBytesToKeyAsWritten | src/lib.rs:341-347 | the decoder as written panics on fewer than 2 bytes |
| TestCodecs.SimpleBytesToKey | src/lib.rs:341-347 | the corrected decoder fails exactly on fewer than 2 bytes and inverts the encoder |
| TestCodecs.SimpleDecoderPanicsOnShortInput | src/lib.rs:341-347 | a 1-byte key makes the written decoder panic; the corrected one reports `InvalidValue` |
| TestCodecs.SimpleBytesToValue | src/lib.rs:349-351 | stored bytes decode to the same bytes, so decoding inverts `SimpleValueToBytes` |
| TestCodecs.SimpleEntry | src/lib.rs:317-319 | simple rows live in the default partition |
| TestCodecs.SimpleCodecLawful | src/lib.rs:333-351 | the simple codec inverts and its key bytes sort like the keys |
| TestCodecs.BitsToI64 | src/lib.rs:281-287 | reading 64 bits as a two's-complement `i64` inverts the reinterpretation used by the encoder |
| SortDedup.InsertStableSorted | src/lib.rs:99-115 | stable insertion keeps rows sorted by key |
| SortDedup.InsertStableLastWins | src/lib.rs:99-115 | stable insertion after equal keys keeps the inserted row the last of its key |
| SortDedup.StableSort | src/lib.rs:104 | `sort_by_key` returns a permutation of its input; `StableSortSorted` and `StableSortLastWins` state its order |
| SortDedup.StableSortSorted | src/lib.rs:99-115 | the stable sort orders rows by key |
| SortDedup.StableSortLastWins | src/lib.rs:99-115 | the stable sort keeps, for each key, which value came last |
| SortDedup.RunEnd | src/lib.rs:108-112 | finds the end of the run of rows sharing the current key |
| SortDedup.SortAndDedup | src/lib.rs:99-115 | the result is strictly sorted and holds each key once, with its last value |
| SortDedup.SortAndDedupIsUpsertFold | src/lib.rs:121-133 | that result is exactly what inserting the rows one by one into an empty partition stores |
| LibTests.FilterLeft | src/lib.rs:117-119 | an error is kept as an error, a `Left` entity becomes `Ok`, and the result is `None` exactly for a `Right` key |
| LibTests.FilterLefts | src/lib.rs:145-147 | `filter_map(filter_left)` keeps every kept item and nothing else, is no longer than its input, and has the input's length when nothing is dropped |
| LibTests.FilterLeftsCons | src/lib.rs:117-119 | `filter_left` keeps errors and entities and drops rejected keys, one item at a time |
| LibTests.AcceptedItemKept | src/lib.rs:117-119 | with a predicate accepting everything, the selective decode is kept and equals the full decode |
| LibTests.AcceptAllLeftsAreEntries | src/lib.rs:145-148 | a selective scan that accepts everything, filtered, is a full scan |
| LibTests.CollectEntries | src/lib.rs:130 | draining an iterator collects its remaining items |
| LibTests.CollectLefts | src/lib.rs:145-148 | draining a selective iterator through `filter_left` collects its remaining entities |
| LibTests.InsertIsUpsert | src/access.rs:199-215 | inserting a row into a partition holding encoded rows leaves the encoding of the upserted rows |
| LibTests.ScanReadsRows | src/lib.rs:144-148 | a full scan, or a selective scan accepting everything, of encoded rows reads the rows back |
| LibTests.InsertedReadsBack | src/lib.rs:121-133 | after inserting rows one by one the partition reads back as the sorted, deduplicated rows |
| LibTests.InsertAll | src/lib.rs:125-127 | the insert loop leaves the partition holding the upsert fold of the values |
| LibTests.InsertAndRead | src/lib.rs:121-130 | inserting then scanning returns `sort_and_dedup` of the values, and the partition holds their encoding |
| LibTests.ReadSelected | src/lib.rs:144-148 | an accept-all selective scan of a stored table, through `filter_left`, returns its rows |
| LibTests.SimpleTableOperations | src/lib.rs:121-133 | the simple property test succeeds for every input |
| LibTests.IndexScanEncode | src/lib.rs:164-166 | an index scan of stored scores is the encoding of the scores with that index |
| LibTests.IndexLookupReadsRows | src/lib.rs:158-171 | an index lookup, full or selective, decodes back exactly the scores with that index |
| LibTests.IndexLookupMatches | src/lib.rs:157-174 | one index lookup agrees with filtering the sorted scores |
| LibTests.IndexedTableOperations | src/lib.rs:135-180 | the indexed property test succeeds for every input |
| LibTests.AllIndexLookupsMatch | src/lib.rs:150-175 | every index value's lookup agrees with filtering |
| LibTests.TestDatabaseSimple | src/lib.rs:183-189 | opening a fresh database and running the simple test succeeds |
| LibTests.TestDatabaseSimpleTransactional | src/lib.rs:192-198 | the same on a transactional database |
| LibTests.FreshScoresPartition | src/lib.rs:201-207 | a fresh database for the score entry has an empty `scores` partition |
| LibTests.TestDatabase | src/lib.rs:201-207 | opening a fresh database and running the indexed test succeeds |
| LibTests.TestDatabaseTransactional | src/lib.rs:210-216 | the same on a transactional database |
| ReworkMode.NonPrimaryModes | src/rework/mode.rs:16-18 | read-only and secondary are exactly the non-primary modes |
| ReworkMode.ModeTypeOf | src/rework/mode.rs:33-55 | the writeable and transactional markers are exactly the primary ones |
| ReworkMode.ModeTypeOfInjective | src/rework/mode.rs:33-55 | distinct markers report distinct mode types |
| ReworkMode.ModeTypeOfOnto | src/rework/mode.rs:8-13 | every mode type is reported by some marker |
| ReworkIterators.DecodePair | src/rework/iterators.rs:23-33 | yields `(key, value)` exactly when the main iterator's decode yields that entity, and the same error otherwise |
| ReworkIterators.DecodeSelectedPair | src/rework/iterators.rs:48-63 | yields `(key, None)` for a rejected key and `(key, Some(value))` for an accepted one, agreeing with the main selective decode |
| ReworkIterators.RejectedPairNeverFails | src/rework/iterators.rs:48-63 | a rejected key never fails on its value bytes |
| ReworkIterators.TableIterator.Next | src/rework/iterators.rs:23-33 | one cursor item per call, `None` exactly at exhaustion |
| ReworkIterators.SelectedValueTableIterator.Next | src/rework/iterators.rs:48-63 | one cursor item per call, `None` exactly at exhaustion |
| Rework.DefaultPrefixTable | src/rework/mod.rs:38-40 | by default a table's prefix length is its index width `N` |
| Rework.TableOptions | src/rework/mod.rs:42-50 | a positive prefix length sets the fixed-prefix extractor, a merge operator is set when the table has one, and nothing else changes |
| Rework.TableOptionsOnDefault | src/rework/mod.rs:42-50 | on default options the extractor is present iff the prefix length is positive, and the merge operator is the table's |
| Rework.TableOptionsIdempotent | src/rework/mod.rs:42-50 | configuring twice is configuring once |
| Rework.ConfigureOptions | src/rework/mod.rs:42-50 | the in-place configuration yields the configured options |
| Rework.New | src/rework/mod.rs:59-64 | a table handle without a name |
| Rework.NewCf | src/rework/mod.rs:66-71 | a table handle naming its column family |
| Rework.CfDescriptorOpt | src/rework/mod.rs:80-94 | a descriptor exists iff the handle is named, with the table's options passed through the caller's adjustment |
| Rework.CfDescriptor | src/rework/mod.rs:73-78 | a descriptor exists iff the handle is named, with the table's options |
| Rework.FromTable1 | src/rework/mod.rs:107-119 | a named table gives one descriptor; an unnamed one configures the database options instead |
| Rework.Parts | src/rework/mod.rs:121-126 | descriptors are kept and the options are the defaults when the configuration lists column families; otherwise its options are kept and there are no descriptors |
| Rework.OpenRequestFor | src/rework/mod.rs:135-149 | read-only opens read-only; the database is created if missing, missing column families are created iff there are descriptors, and the configuration's extractor and merge operator are kept |
| Rework.OpenTable1 | src/rework/mod.rs:107-149 | opening one table's configuration passes its single descriptor, or configures the database options with the table's extractor and merge operator |
| Rework.TableEntry | src/rework/mod.rs:129-132 | a table handle reads and writes like an entry with its name, merge operator and codec |
| Rework.IndexScan | src/rework/mod.rs:168-192 | an index scan yields exactly the pairs whose key starts with the index bytes, in key order, or fails on an unknown column family |
| Rework.Database.Iter | src/rework/mod.rs:151-166 | a fresh iterator over the whole partition, or `InvalidCfName` |
| Rework.Database.IterIndex | src/rework/mod.rs:168-192 | the index has `N > 0` bytes; a fresh iterator over the index scan, every key of which starts with those `N` bytes, or `InvalidCfName` |
| Rework.Database.Put | src/rework/mod.rs:195-218 | only a writeable database puts; the store becomes the insert's result on success and is unchanged on error |
| Rework.Open | src/rework/mod.rs:135-149 | makes exactly the request `OpenRequestFor` describes and wraps the resulting store, or returns the engine's error |
| ReworkTests.TimestampBits | src/rework/mod.rs:248-253 | truncating a timestamp to `u32` is the identity exactly on `[0, 2^32)` |
| ReworkTests.CountsKeyToBytes | src/rework/mod.rs:248-253 | a counts key is 12 bytes, the big-endian `u64` then the truncated timestamp |
| ReworkTests.StoredKeyToBytes | src/rework/mod.rs:248-253 | a stored counts key encodes to 12 bytes that decode back to the same key |
| ReworkTests.CountsValueToBytes | src/rework/mod.rs:255-257 | a count is its 4 big-endian bytes |
| ReworkTests.CountsBytesToKeyAsWritten | src/rework/mod.rs:259-278 | the decoder as written panics on fewer than 12 bytes |
| ReworkTests.CountsBytesToKey | src/rework/mod.rs:259-278 | the corrected decoder fails exactly on fewer than 12 bytes and inverts the encoder |
| ReworkTests.CountsBytesToValueAsWritten | src/rework/mod.rs:280-286 | the decoder as written panics on fewer than 4 bytes |
| ReworkTests.CountsBytesToValue | src/rework/mod.rs:280-286 | the corrected decoder fails exactly on fewer than 4 bytes and inverts the encoder |
| ReworkTests.CountsDecodersPanicOnShortInput | src/rework/mod.rs:259-286 | an 11-byte key and a 3-byte value make the written decoders panic; the corrected ones report `InvalidValue` |
| ReworkTests.CountsKeyRoundTrip | src/rework/mod.rs:248-278 | a key round-trips to its truncated timestamp, so exactly when the timestamp fits in `u32` |
| ReworkTests.CountsTimestampWraps | src/rework/mod.rs:248-253 | a timestamp of -1 seconds reads back as `2^32 - 1` |
| ReworkTests.CountsIndexToBytes | src/rework/mod.rs:288-290 | the index is the 8 big-endian bytes of the `u64` |
| ReworkTests.CountsTable | src/rework/mod.rs:239-295 | the counts table has an 8-byte index and prefix, every encoded index is 8 bytes, and it uses the `addition` merge operator |
| ReworkTests.CountsIndexIsKeyPrefix | src/rework/mod.rs:288-290 | the index bytes are the first 8 key bytes, and key bytes start with an index's bytes iff it is the key's first component |
| ReworkTests.CountsKeyOrder | src/rework/mod.rs:248-253 | lexicographic key order is exactly byte order of the key encoding |
| ReworkTests.CountsCodecLawful | src/rework/mod.rs:248-286 | the counts codec inverts and its key bytes sort like the keys |
| ReworkTests.OperandsTotalAppend | src/rework/mod.rs:297-313 | the sum over concatenated operands is the sum of the two sums |
| ReworkTests.MergeAssociative | src/rework/mod.rs:297-313 | merging in two steps, feeding the first result back as the existing value, equals merging all operands at once |
| ReworkTests.AddU64 | src/rework/mod.rs:297-313 | the merge returns the 4-byte big-endian sum of the existing value and the operands |
| ReworkTests.FreshDirectory | src/rework/mod.rs:317-324 | a new directory opens with every requested column family empty |
| ReworkTests.PairsRoundTrip | src/rework/mod.rs:341-345 | scanning encoded pairs through the table iterator collects them back, in order |
| ReworkTests.UpsertAtEnd | src/rework/mod.rs:337-339 | upserting a key greater than all stored ones appends it |
| ReworkTests.CollectPairs | src/rework/mod.rs:341-345 | draining a table iterator collects its remaining items |
| ReworkTests.TestValues | src/rework/mod.rs:326-335 | the two test values have increasing keys |
| ReworkTests.OpenCounts | src/rework/mod.rs:317-324 | the test database opens writeable, with an empty `foo` partition |
| ReworkTests.PutNextRow | src/rework/mod.rs:337-339 | putting the next of some strictly sorted rows extends the stored encoding by that row |
| ReworkTests.PutCounts | src/rework/mod.rs:337-339 | putting sorted values stores exactly their encoding |
| ReworkTests.DbTest | src/rework/mod.rs:316-362 | the rework test reads back exactly what it put |

## Left out

- `src/rework/db.rs` adapts RocksDB's plain and transactional databases to the `Db` trait behind `Rework.Open`, and is not modelled on its own. The `engine` parameter of `Rework.Open` stands for its choices. It opens without descriptors when the list is empty. It opens read-only with `error_if_log_file_exist` set. A transactional database asked to open read-only opens read-write instead (src/rework/db.rs:157-163). Its other methods forward reads, scans, writes and merges to RocksDB unchanged.
- Engine failures after open are not modelled: `Engine.Cursor` yields only `Ok` items, `Engine.MultiGet` only `Ok` slots, and `Engine.Put` always succeeds. So the cursor-error clauses of `Iter.DecodeEntry`, `Iter.DecodeSelected`, `ReworkIterators.DecodePair` and `ReworkIterators.DecodeSelectedPair`, and the engine-error clause of `Access.DecodeFound`, are never reached from a store. `Access.InsertEntry`, `Access.Handle.Insert`, `Db.Database.Insert` and `Rework.Database.Put` never fail because the engine failed.
- `src/error.rs` is not part of this model. The variants of `src/rework/error.rs` stand for all errors, and the test-only error enums fold into the same datatype.
- Transaction isolation, commit and rollback are left out, as is sharing the database through `Arc`. A transaction sees the database's store as it was when the transaction began, and its own writes.
- RocksDB itself is left out: file handling, the write-ahead log, compaction, and how a prefix extractor works inside the engine. A scan is modelled by what it returns under the assumption below.
- `Access.IndexCursor`, `Rework.IndexScan`: both model RocksDB's `prefix_iterator` as yielding exactly the pairs whose key starts with the index bytes. That is RocksDB's behaviour only when the partition has a fixed-prefix extractor of the index width N, which `add_indexed` installs (src/lib.rs:48-62) and a default `prefix_len` of N installs in the rework (src/rework/mod.rs:38-50). An `Indexed` entry registered with plain `add`, or a rework table whose `prefix_len` differs from N, scans differently in RocksDB (without an extractor, from the prefix to the end of the partition); these models do not capture that, and `Rework.IndexScan` does not read `prefix_len`.
- Opening an engine is a function parameter, so I/O errors are whatever that function returns. The property tests take their random inputs as parameters and are proved for all of them. The temporary directory is not a parameter: `LibTests.TestDatabase*` open through the fixed `LibTests.FreshEngine` and `ReworkTests.OpenCounts` through the fixed `ReworkTests.FreshDirectory`, so each is proved for a brand-new, empty directory only.
- A merge operator is represented by its name. The function pointer is not stored in the options.
- `SortDedup.SortAndDedup`: the in-place `Vec` sort is modelled on sequences, by stable insertion sort followed by a loop that keeps the last row of each run of equal keys (the `group_by` step). The in-place update is not captured.
- `ReworkTests.AddU64`: it requires that the sum fits in `u32` and that every operand has at least 4 bytes. The overflowing, wrapping and panicking cases of the Rust code are not modelled.
- `ReworkTests.StoredKeyToBytes`: the counts table's key type is restricted to timestamps in `[0, 2^32)`. Only those keys round-trip; `ReworkTests.CountsKeyRoundTrip` states the general case.
- Timestamps are whole seconds since the epoch, as an `i64`. Calendar handling in `chrono` is left out.
- `TestCodecs.SimpleBytesToValue`: the simple value is raw bytes, so the UTF-8 check of the Rust `String` is not modelled and decoding never fails.
- `Rework.Database.IterIndex`: it requires a non-zero index width, and an index encoding of exactly that width. The source enforces the first when the program is built, by evaluating `NON_ZERO_N`. It enforces the second by the `[u8; N]` return type of `index_to_bytes`.
- `Rework.Open`: it requires a read-only or writeable marker. The source has no `open` for the secondary and transactional markers.
- The rework `SelectedValueTableIterator` has no constructor in the source. The model gives it one so that it can be used at all.

## Findings

| source | as written | input that shows it | evidently intended | confidence | as-written member | corrected member |
|---|---|---|---|---|---|---|
| src/lib.rs:265-279 | the score key decoder slices bytes 0..2 and 2..6 unchecked, so its `InvalidValue` error path can never be taken | a 1-byte key `[0]` panics | return `InvalidValue` for fewer than 6 bytes | not executed | TestCodecs.ScoreDecodersPanicOnShortInput | TestCodecs.ScoreBytesToKey |
| src/lib.rs:281-287 | the score value decoder slices 8 bytes unchecked | a 7-byte value panics | return `InvalidValue` for fewer than 8 bytes | not executed | TestCodecs.ScoreDecodersPanicOnShortInput | TestCodecs.ScoreBytesToValue |
| src/lib.rs:341-347 | the simple key decoder slices 2 bytes unchecked | a 1-byte key `[7]` panics | return `InvalidValue` for fewer than 2 bytes | not executed | TestCodecs.SimpleDecoderPanicsOnShortInput | TestCodecs.SimpleBytesToKey |
| src/rework/mod.rs:259-278 | the counts key decoder slices 12 bytes unchecked | an 11-byte key panics | return `InvalidValue` for fewer than 12 bytes | not executed | ReworkTests.CountsDecodersPanicOnShortInput | ReworkTests.CountsBytesToKey |
| src/rework/mod.rs:280-286 | the counts value decoder slices 4 bytes unchecked | a 3-byte value panics | return `InvalidValue` for fewer than 4 bytes | not executed | ReworkTests.CountsDecodersPanicOnShortInput | ReworkTests.CountsBytesToValue |
