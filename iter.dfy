/**
 * The decoding iterators: each wraps an engine cursor and maps every raw
 * item it yields through the entity's decoders, one item per step.
 */
module Iter {
  import opened Wrappers
  import opened Bytes
  import opened Errors
  import opened Engine
  import opened Entries

  /**
   * What `EntryIterator::next` makes of one cursor item: a cursor error passes
   * through; otherwise the key is decoded first and, only if that succeeds, the value.
   */
  function DecodeEntry<K, V>(c: Codec<K, V>, item: RawItem): (r: Result<Row<K, V>, Error>)
    ensures item.Err? ==> r == Err(item.error)
    ensures item.Ok? && c.bytesToKey(item.value.0).Err? ==> r == Err(c.bytesToKey(item.value.0).error)
    ensures item.Ok? && c.bytesToKey(item.value.0).Ok? && c.bytesToValue(item.value.1).Err? ==>
      r == Err(c.bytesToValue(item.value.1).error)
    ensures r.Ok? <==> item.Ok? && c.bytesToKey(item.value.0).Ok? && c.bytesToValue(item.value.1).Ok?
    ensures r.Ok? ==> r.value == Row(c.bytesToKey(item.value.0).value, c.bytesToValue(item.value.1).value)
  {
    var kv :- item;
    var key :- c.bytesToKey(kv.0);
    var value :- c.bytesToValue(kv.1);
    Ok(Row(key, value))
  }

  /** A key that does not decode makes the item fail the same way whatever its value bytes are. */
  lemma KeyErrorIgnoresValue<K, V>(c: Codec<K, V>, kb: Bytes, vb1: Bytes, vb2: Bytes)
    requires c.bytesToKey(kb).Err?
    ensures DecodeEntry(c, Ok((kb, vb1))) == DecodeEntry(c, Ok((kb, vb2))) == Err(c.bytesToKey(kb).error)
  {
  }

  /**
   * What `SelectedEntryIterator::next` makes of one cursor item: the key is always
   * decoded; the value only when `pred` accepts the key (`Left`), otherwise the bare
   * key comes back (`Right`) and the value bytes are never looked at.
   */
  function DecodeSelected<K, V>(c: Codec<K, V>, pred: K -> bool, item: RawItem): (r: Result<Either<Row<K, V>, K>, Error>)
    ensures item.Err? ==> r == Err(item.error)
    ensures item.Ok? && c.bytesToKey(item.value.0).Err? ==> r == Err(c.bytesToKey(item.value.0).error)
    ensures r.Ok? && r.value.Right? <==> item.Ok? && c.bytesToKey(item.value.0).Ok? && !pred(c.bytesToKey(item.value.0).value)
    ensures r.Ok? && r.value.Right? ==> r.value.right == c.bytesToKey(item.value.0).value
    ensures r.Ok? && r.value.Left? ==> DecodeEntry(c, item) == Ok(r.value.left)
  {
    var kv :- item;
    var key :- c.bytesToKey(kv.0);
    if pred(key) then
      var value :- c.bytesToValue(kv.1);
      Ok(Left(Row(key, value)))
    else
      Ok(Right(key))
  }

  /** Under a rejecting predicate, malformed value bytes cannot make an item fail. */
  lemma RejectedNeverFails<K, V>(c: Codec<K, V>, pred: K -> bool, kb: Bytes, vb: Bytes)
    requires c.bytesToKey(kb).Ok? && !pred(c.bytesToKey(kb).value)
    ensures DecodeSelected(c, pred, Ok((kb, vb))) == Ok(Right(c.bytesToKey(kb).value))
  {
  }

  /** Under an accepting predicate, the selective decode is the full decode tagged `Left`. */
  lemma AcceptedIsFullDecode<K, V>(c: Codec<K, V>, pred: K -> bool, item: RawItem)
    requires item.Ok? && c.bytesToKey(item.value.0).Ok? && pred(c.bytesToKey(item.value.0).value)
    ensures DecodeSelected(c, pred, item).Ok? <==> DecodeEntry(c, item).Ok?
    ensures DecodeEntry(c, item).Ok? ==> DecodeSelected(c, pred, item) == Ok(Left(DecodeEntry(c, item).value))
    ensures DecodeEntry(c, item).Err? ==> DecodeSelected(c, pred, item) == Err(DecodeEntry(c, item).error)
  {
  }

  /** Everything an `EntryIterator` over `items` yields, in order. */
  function DecodedEntries<K, V>(c: Codec<K, V>, items: seq<RawItem>): (r: seq<Result<Row<K, V>, Error>>)
    ensures |r| == |items| && forall i :: 0 <= i < |items| ==> r[i] == DecodeEntry(c, items[i])
  {
    seq(|items|, i requires 0 <= i < |items| => DecodeEntry(c, items[i]))
  }

  /** Everything a `SelectedEntryIterator` over `items` yields, in order. */
  function DecodedSelected<K, V>(c: Codec<K, V>, pred: K -> bool, items: seq<RawItem>): (r: seq<Result<Either<Row<K, V>, K>, Error>>)
    ensures |r| == |items| && forall i :: 0 <= i < |items| ==> r[i] == DecodeSelected(c, pred, items[i])
  {
    seq(|items|, i requires 0 <= i < |items| => DecodeSelected(c, pred, items[i]))
  }

  /** `EntryIterator`: a cursor over `underlying`, of which the first `pos` items are consumed. */
  class EntryIterator<K, V> {
    const codec: Codec<K, V>
    const underlying: seq<RawItem>
    var pos: nat

    ghost predicate Valid()
      reads this
    {
      pos <= |underlying|
    }

    constructor (codec: Codec<K, V>, underlying: seq<RawItem>)
      ensures this.codec == codec && this.underlying == underlying && pos == 0
      ensures Valid()
    {
      this.codec := codec;
      this.underlying := underlying;
      pos := 0;
    }

    /** The items still to come. */
    function Remaining(): (r: seq<Result<Row<K, V>, Error>>)
      reads this
      requires Valid()
      ensures |r| == |underlying| - pos
    {
      DecodedEntries(codec, underlying[pos..])
    }

    /**
     * `next`: consumes exactly one cursor item and yields its decode; `None`
     * exactly when the cursor is exhausted. An error does not end the iteration.
     */
    method Next() returns (r: Option<Result<Row<K, V>, Error>>)
      requires Valid()
      modifies this
      ensures Valid()
      ensures old(pos) == |underlying| <==> r.None?
      ensures r.None? ==> pos == old(pos)
      ensures r.Some? ==> pos == old(pos) + 1 && r.value == DecodeEntry(codec, underlying[old(pos)])
      ensures r.Some? ==> [r.value] + Remaining() == old(Remaining())
    {
      if pos == |underlying| {
        r := None;
      } else {
        r := Some(DecodeEntry(codec, underlying[pos]));
        pos := pos + 1;
        assert old(underlying[pos..]) == [underlying[pos - 1]] + underlying[pos..];
      }
    }
  }

  /** `SelectedEntryIterator`: like `EntryIterator`, with the predicate that selects values to decode. */
  class SelectedEntryIterator<K, V> {
    const codec: Codec<K, V>
    const pred: K -> bool
    const underlying: seq<RawItem>
    var pos: nat

    ghost predicate Valid()
      reads this
    {
      pos <= |underlying|
    }

    constructor (codec: Codec<K, V>, underlying: seq<RawItem>, pred: K -> bool)
      ensures this.codec == codec && this.underlying == underlying && this.pred == pred && pos == 0
      ensures Valid()
    {
      this.codec := codec;
      this.underlying := underlying;
      this.pred := pred;
      pos := 0;
    }

    function Remaining(): (r: seq<Result<Either<Row<K, V>, K>, Error>>)
      reads this
      requires Valid()
      ensures |r| == |underlying| - pos
    {
      DecodedSelected(codec, pred, underlying[pos..])
    }

    /** `next`: one cursor item per call, `None` exactly at exhaustion. */
    method Next() returns (r: Option<Result<Either<Row<K, V>, K>, Error>>)
      requires Valid()
      modifies this
      ensures Valid()
      ensures old(pos) == |underlying| <==> r.None?
      ensures r.None? ==> pos == old(pos)
      ensures r.Some? ==> pos == old(pos) + 1 && r.value == DecodeSelected(codec, pred, underlying[old(pos)])
      ensures r.Some? ==> [r.value] + Remaining() == old(Remaining())
    {
      if pos == |underlying| {
        r := None;
      } else {
        r := Some(DecodeSelected(codec, pred, underlying[pos]));
        pos := pos + 1;
        assert old(underlying[pos..]) == [underlying[pos - 1]] + underlying[pos..];
      }
    }
  }
}
