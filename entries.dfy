/**
 * What an entity type promises the layer: an optional partition name, an
 * optional associative merge operator, and four fallible codec functions
 * between its key and value types and the engine's byte strings.
 */
module Entries {
  import opened Wrappers
  import opened Bytes
  import opened Errors
  import opened Engine

  /** `key_to_bytes`, `value_to_bytes`, `bytes_to_key`, `bytes_to_value`; each may fail. */
  datatype Codec<!K, !V> = Codec(
    keyToBytes: K -> Result<Bytes, Error>,
    valueToBytes: V -> Result<Bytes, Error>,
    bytesToKey: Bytes -> Result<K, Error>,
    bytesToValue: Bytes -> Result<V, Error>)

  /** An entity value, as built by `E::new(key, value)` and taken apart by `key()` and `value()`. */
  datatype Row<K, V> = Row(key: K, value: V)

  /**
   * An entity type. `name == None` selects the engine's default partition;
   * `associativeMerge` names the merge operator the entity registers, if any.
   */
  datatype Entry<!K, !V> = Entry(name: Option<string>, associativeMerge: Option<MergeOperator>, codec: Codec<K, V>)

  /** An entity type that keeps the trait's default `name` and `associative_merge`. */
  function WithDefaults<K, V>(codec: Codec<K, V>): (e: Entry<K, V>)
    ensures e.name.None? && e.associativeMerge.None?
    ensures e.codec == codec
  {
    Entry(None, None, codec)
  }

  /**
   * `Indexed<N>`: an entity type with an index of `n` bytes. `index` extracts the
   * index of an entity; `indexToBytes` encodes it as the prefix the layer scans for.
   */
  datatype Indexed<!K, !V, !I> = Indexed(
    entry: Entry<K, V>,
    n: nat,
    index: Row<K, V> -> I,
    indexToBytes: I -> Bytes)

  /** The `[u8; N]` result type: every encoded index has exactly `n` bytes. */
  ghost predicate FixedWidth<K, V, I(!new)>(ix: Indexed<K, V, I>)
  {
    forall i :: |ix.indexToBytes(i)| == ix.n
  }

  /** `NON_ZERO_N`: evaluating it panics exactly when `n == 0`. */
  predicate NonZeroN(n: nat)
  {
    n != 0
  }
}
