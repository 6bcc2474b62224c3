/**
 * The reworked decoding iterators. They differ from the main ones only in what
 * they yield: a `(key, value)` pair rather than an entity, and, for the
 * selective iterator, `(key, None)` rather than a bare key when the predicate
 * rejects the key.
 */
module ReworkIterators {
  import opened Wrappers
  import opened Bytes
  import opened Errors
  import opened Engine
  import opened Entries
  import opened Iter

  /**
   * What `TableIterator::next` makes of one cursor item: a cursor error passes
   * through, then the key is decoded and, only if that succeeds, the value.
   */
  function DecodePair<K, V>(c: Codec<K, V>, item: RawItem): (r: Result<(K, V), Error>)
    ensures item.Ok? && c.bytesToKey(item.value.0).Err? ==> r == Err(c.bytesToKey(item.value.0).error)
    ensures r.Ok? <==> DecodeEntry(c, item).Ok?
    ensures r.Ok? ==> r.value == (DecodeEntry(c, item).value.key, DecodeEntry(c, item).value.value)
    ensures r.Err? ==> r.error == DecodeEntry(c, item).error
  {
    var kv :- item;
    var key :- c.bytesToKey(kv.0);
    var value :- c.bytesToValue(kv.1);
    Ok((key, value))
  }

  /**
   * What `SelectedValueTableIterator::next` makes of one cursor item: the key is
   * always decoded, the value only when `pred` accepts the key; otherwise the
   * key comes back with `None` and the value bytes are never looked at.
   */
  function DecodeSelectedPair<K, V>(c: Codec<K, V>, pred: K -> bool, item: RawItem): (r: Result<(K, Option<V>), Error>)
    ensures r.Ok? <==> DecodeSelected(c, pred, item).Ok?
    ensures r.Err? ==> r.error == DecodeSelected(c, pred, item).error
    ensures r.Ok? && r.value.1.None? ==> DecodeSelected(c, pred, item) == Ok(Right(r.value.0))
    ensures r.Ok? && r.value.1.Some? ==> DecodeSelected(c, pred, item) == Ok(Left(Row(r.value.0, r.value.1.value)))
  {
    var kv :- item;
    var key :- c.bytesToKey(kv.0);
    if pred(key) then
      var value :- c.bytesToValue(kv.1);
      Ok((key, Some(value)))
    else
      Ok((key, None))
  }

  /** A rejected key yields `(key, None)` whatever the value bytes are. */
  lemma RejectedPairNeverFails<K, V>(c: Codec<K, V>, pred: K -> bool, kb: Bytes, vb: Bytes)
    requires c.bytesToKey(kb).Ok? && !pred(c.bytesToKey(kb).value)
    ensures DecodeSelectedPair(c, pred, Ok((kb, vb))) == Ok((c.bytesToKey(kb).value, None))
  {
    RejectedNeverFails(c, pred, kb, vb);
  }

  /** Everything a `TableIterator` over `items` yields, in order. */
  function DecodedPairs<K, V>(c: Codec<K, V>, items: seq<RawItem>): (r: seq<Result<(K, V), Error>>)
    ensures |r| == |items| && forall i :: 0 <= i < |items| ==> r[i] == DecodePair(c, items[i])
  {
    seq(|items|, i requires 0 <= i < |items| => DecodePair(c, items[i]))
  }

  /** Everything a `SelectedValueTableIterator` over `items` yields, in order. */
  function DecodedSelectedPairs<K, V>(c: Codec<K, V>, pred: K -> bool, items: seq<RawItem>): (r: seq<Result<(K, Option<V>), Error>>)
    ensures |r| == |items| && forall i :: 0 <= i < |items| ==> r[i] == DecodeSelectedPair(c, pred, items[i])
  {
    seq(|items|, i requires 0 <= i < |items| => DecodeSelectedPair(c, pred, items[i]))
  }

  /** `TableIterator`: a cursor over `underlying`, of which the first `pos` items are consumed. */
  class TableIterator<K, V> {
    const codec: Codec<K, V>
    const underlying: seq<RawItem>
    var pos: nat

    ghost predicate Valid()
      reads this
    {
      pos <= |underlying|
    }

    /** `TableIterator::new`: nothing consumed yet. */
    constructor (codec: Codec<K, V>, underlying: seq<RawItem>)
      ensures this.codec == codec && this.underlying == underlying && pos == 0
      ensures Valid()
    {
      this.codec := codec;
      this.underlying := underlying;
      pos := 0;
    }

    /** The items still to come. */
    function Remaining(): (r: seq<Result<(K, V), Error>>)
      reads this
      requires Valid()
      ensures |r| == |underlying| - pos
    {
      DecodedPairs(codec, underlying[pos..])
    }

    /** `next`: consumes exactly one cursor item and yields its decode; `None` exactly at exhaustion. */
    method Next() returns (r: Option<Result<(K, V), Error>>)
      requires Valid()
      modifies this
      ensures Valid()
      ensures old(pos) == |underlying| <==> r.None?
      ensures r.None? ==> pos == old(pos)
      ensures r.Some? ==> pos == old(pos) + 1 && r.value == DecodePair(codec, underlying[old(pos)])
      ensures r.Some? ==> [r.value] + Remaining() == old(Remaining())
    {
      if pos == |underlying| {
        r := None;
      } else {
        r := Some(DecodePair(codec, underlying[pos]));
        pos := pos + 1;
        assert old(underlying[pos..]) == [underlying[pos - 1]] + underlying[pos..];
      }
    }
  }

  /** `SelectedValueTableIterator`: like `TableIterator`, with the predicate that selects values to decode. */
  class SelectedValueTableIterator<K, V> {
    const codec: Codec<K, V>
    const pred: K -> bool
    const underlying: seq<RawItem>
    var pos: nat

    ghost predicate Valid()
      reads this
    {
      pos <= |underlying|
    }

    constructor (codec: Codec<K, V>, underlying: seq<RawItem>, pred: K -> bool)
      ensures this.codec == codec && this.underlying == underlying && this.pred == pred && pos == 0
      ensures Valid()
    {
      this.codec := codec;
      this.underlying := underlying;
      this.pred := pred;
      pos := 0;
    }

    function Remaining(): (r: seq<Result<(K, Option<V>), Error>>)
      reads this
      requires Valid()
      ensures |r| == |underlying| - pos
    {
      DecodedSelectedPairs(codec, pred, underlying[pos..])
    }

    /** `next`: one cursor item per call, `None` exactly at exhaustion. */
    method Next() returns (r: Option<Result<(K, Option<V>), Error>>)
      requires Valid()
      modifies this
      ensures Valid()
      ensures old(pos) == |underlying| <==> r.None?
      ensures r.None? ==> pos == old(pos)
      ensures r.Some? ==> pos == old(pos) + 1 && r.value == DecodeSelectedPair(codec, pred, underlying[old(pos)])
      ensures r.Some? ==> [r.value] + Remaining() == old(Remaining())
    {
      if pos == |underlying| {
        r := None;
      } else {
        r := Some(DecodeSelectedPair(codec, pred, underlying[pos]));
        pos := pos + 1;
        assert old(underlying[pos..]) == [underlying[pos - 1]] + underlying[pos..];
      }
    }
  }
}
