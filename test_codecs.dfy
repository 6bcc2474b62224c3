/**
 * The two entity types the repository's own tests use, `Score` (named,
 * indexed by its `id`) and `Simple` (unnamed), with their byte encodings.
 *
 * The decoders as written slice a fixed byte range before converting it, so
 * input that is too short panics on the slice and the `InvalidValue` error they
 * map to can never be produced. Each decoder appears twice: as written, with
 * the panic as an explicit outcome, and corrected, returning `InvalidValue` on
 * short input; the entity types use the corrected decoders.
 */
module TestCodecs {
  import opened Wrappers
  import opened Bytes
  import opened Errors
  import opened Entries
  import opened EncodingLaws

  type U16 = x: nat | x < 0x1_0000
  type U32 = x: nat | x < 0x1_0000_0000
  type I64 = x: int | -0x8000_0000_0000_0000 <= x < 0x8000_0000_0000_0000

  lemma Pow256Widths()
    ensures Pow256(2) == 0x1_0000 && Pow256(4) == 0x1_0000_0000 && Pow256(8) == 0x1_0000_0000_0000_0000
  {
    assert Pow256(1) == 0x100;
    assert Pow256(2) == 0x1_0000;
    assert Pow256(3) == 0x100_0000;
    assert Pow256(4) == 0x1_0000_0000;
    assert Pow256(5) == 0x100_0000_0000;
    assert Pow256(6) == 0x1_0000_0000_0000;
    assert Pow256(7) == 0x100_0000_0000_0000;
  }

  /** A decoder run as written: it returns, or a slice out of range panics. */
  datatype Outcome<T> = Returned(result: Result<T, Error>) | Panicked

  /** The bit pattern of an `i64` read as an unsigned 64-bit number (two's complement). */
  function I64ToBits(v: I64): (u: nat)
    ensures u < 0x1_0000_0000_0000_0000
    ensures v >= 0 ==> u == v
  {
    if v < 0 then v + 0x1_0000_0000_0000_0000 else v
  }

  /** `i64::from_be_bytes` after the bytes are read as an unsigned number. */
  function BitsToI64(u: nat): (v: I64)
    requires u < 0x1_0000_0000_0000_0000
    ensures I64ToBits(v) == u
  {
    if u >= 0x8000_0000_0000_0000 then u - 0x1_0000_0000_0000_0000 else u
  }

  /** A big-endian number read from bytes fits their width. */
  lemma FromBEWidths(b: Bytes)
    ensures |b| == 2 ==> FromBE(b) < 0x1_0000
    ensures |b| == 4 ==> FromBE(b) < 0x1_0000_0000
    ensures |b| == 8 ==> FromBE(b) < 0x1_0000_0000_0000_0000
  {
    Pow256Widths();
  }

  // ---------------------------------------------------------------- Score

  /** `Score`'s key: `(id, ts)`. */
  type ScoreKey = (U16, U32)
  type ScoreRow = Row<ScoreKey, I64>

  /** `(id, ts)` order, as derived `Ord` on the tuple. */
  predicate ScoreLess(a: ScoreKey, b: ScoreKey)
  {
    a.0 < b.0 || (a.0 == b.0 && a.1 < b.1)
  }

  /** Six bytes: `id` big-endian, then `ts` big-endian. */
  function ScoreKeyToBytes(k: ScoreKey): (r: Result<Bytes, Error>)
    ensures r.Ok? && |r.value| == 6
    ensures FromBE(r.value[..2]) == k.0 && FromBE(r.value[2..]) == k.1
  {
    Pow256Widths();
    var b := ToBE(k.0, 2) + ToBE(k.1, 4);
    assert b[..2] == ToBE(k.0, 2) && b[2..] == ToBE(k.1, 4);
    FromToBE(k.0, 2);
    FromToBE(k.1, 4);
    Ok(b)
  }

  /** `value.to_be_bytes()` of the `i64`. */
  function ScoreValueToBytes(v: I64): (r: Result<Bytes, Error>)
    ensures r.Ok? && |r.value| == 8
    ensures FromBE(r.value) == I64ToBits(v)
  {
    Pow256Widths();
    FromToBE(I64ToBits(v), 8);
    Ok(ToBE(I64ToBits(v), 8))
  }

  /** `bytes_to_key` as written: `bytes[0..2]`, then `bytes[2..6]`; the conversions of the slices cannot fail. */
  function ScoreBytesToKeyAsWritten(b: Bytes): (r: Outcome<ScoreKey>)
    ensures r.Panicked? <==> |b| < 6
    ensures r.Returned? ==> r.result.Ok?
  {
    if |b| < 2 then Panicked
    else
      FromBEWidths(b[0..2]);
      var id: U16 := FromBE(b[0..2]);
      if |b| < 6 then Panicked
      else
        FromBEWidths(b[2..6]);
        Returned(Ok((id, FromBE(b[2..6]))))
  }

  /** `bytes_to_key` as intended: `InvalidValue` with the offending bytes when fewer than six are given. */
  function ScoreBytesToKey(b: Bytes): (r: Result<ScoreKey, Error>)
    ensures r.Err? <==> |b| < 6
    ensures r.Err? ==> r.error == InvalidValue(b)
    ensures ScoreBytesToKeyAsWritten(b).Returned? ==> r == ScoreBytesToKeyAsWritten(b).result
    ensures r.Ok? ==> ScoreKeyToBytes(r.value).value == b[..6]
  {
    if |b| < 6 then Err(InvalidValue(b))
    else
      FromBEWidths(b[0..2]);
      FromBEWidths(b[2..6]);
      var k: ScoreKey := (FromBE(b[0..2]), FromBE(b[2..6]));
      ToFromBE(b[0..2]);
      ToFromBE(b[2..6]);
      Pow256Widths();
      assert b[..6] == b[0..2] + b[2..6];
      Ok(k)
  }

  /** `bytes_to_value` as written: `bytes[0..8]`. */
  function ScoreBytesToValueAsWritten(b: Bytes): (r: Outcome<I64>)
    ensures r.Panicked? <==> |b| < 8
    ensures r.Returned? ==> r.result.Ok?
  {
    if |b| < 8 then Panicked
    else
      FromBEWidths(b[0..8]);
      Returned(Ok(BitsToI64(FromBE(b[0..8]))))
  }

  /** `bytes_to_value` as intended. */
  function ScoreBytesToValue(b: Bytes): (r: Result<I64, Error>)
    ensures r.Err? <==> |b| < 8
    ensures r.Err? ==> r.error == InvalidValue(b)
    ensures ScoreBytesToValueAsWritten(b).Returned? ==> r == ScoreBytesToValueAsWritten(b).result
    ensures r.Ok? ==> ScoreValueToBytes(r.value).value == b[..8]
  {
    if |b| < 8 then Err(InvalidValue(b))
    else
      FromBEWidths(b[0..8]);
      var v := BitsToI64(FromBE(b[0..8]));
      ToFromBE(b[0..8]);
      Pow256Widths();
      Ok(v)
  }

  /** A one-byte key and a seven-byte value make the decoders as written panic instead of failing. */
  lemma ScoreDecodersPanicOnShortInput()
    ensures ScoreBytesToKeyAsWritten([0]) == Panicked
    ensures ScoreBytesToKey([0]) == Err(InvalidValue([0]))
    ensures ScoreBytesToValueAsWritten([0, 0, 0, 0, 0, 0, 0]) == Panicked
    ensures ScoreBytesToValue([0, 0, 0, 0, 0, 0, 0]) == Err(InvalidValue([0, 0, 0, 0, 0, 0, 0]))
  {
  }

  function ScoreCodec(): Codec<ScoreKey, I64>
  {
    Codec(ScoreKeyToBytes, ScoreValueToBytes, ScoreBytesToKey, ScoreBytesToValue)
  }

  /** `Score`: stored in the `scores` partition, no merge operator. */
  function ScoreEntry(): (e: Entry<ScoreKey, I64>)
    ensures e.name == Some("scores") && e.associativeMerge.None?
  {
    Entry(Some("scores"), None, ScoreCodec())
  }

  /** `Indexed<2>::index`: the `id`. */
  function ScoreIndex(s: ScoreRow): (i: U16)
    ensures i == s.key.0
  {
    s.key.0
  }

  /** `index_to_bytes`: the `id` big-endian. */
  function ScoreIndexToBytes(i: U16): (r: Bytes)
    ensures |r| == 2 && FromBE(r) == i
  {
    Pow256Widths();
    FromToBE(i, 2);
    ToBE(i, 2)
  }

  function ScoreIndexed(): Indexed<ScoreKey, I64, U16>
  {
    Indexed(ScoreEntry(), 2, ScoreIndex, ScoreIndexToBytes)
  }

  lemma ScoreIndexFixedWidth()
    ensures FixedWidth(ScoreIndexed()) && NonZeroN(ScoreIndexed().n)
  {
  }

  /** The encoded index of a score is the first two bytes of its encoded key. */
  lemma ScoreIndexIsKeyPrefix(s: ScoreRow)
    ensures ScoreIndexToBytes(ScoreIndex(s)) == KeyBytes(ScoreCodec(), s.key)[..2]
  {
    var kb := KeyBytes(ScoreCodec(), s.key);
    Pow256Widths();
    ToFromBE(kb[..2]);
    assert |kb[..2]| == 2;
  }

  /** A prefix scan for an encoded index selects exactly the scores with that index. */
  lemma ScorePrefixSelectsIndex(s: ScoreRow, i: U16)
    ensures IsPrefix(ScoreIndexToBytes(i), KeyBytes(ScoreCodec(), s.key)) <==> ScoreIndex(s) == i
  {
    var kb := KeyBytes(ScoreCodec(), s.key);
    ScoreIndexIsKeyPrefix(s);
    assert IsPrefix(ScoreIndexToBytes(i), kb) <==> ScoreIndexToBytes(i) == kb[..2];
    if ScoreIndexToBytes(i) == ScoreIndexToBytes(ScoreIndex(s)) {
      assert FromBE(ScoreIndexToBytes(i)) == i;
    }
  }

  /** Keys round-trip, values round-trip, and byte order is `(id, ts)` order. */
  lemma ScoreCodecLawful()
    ensures Lawful(ScoreCodec(), ScoreLess)
  {
    var c := ScoreCodec();
    Pow256Widths();
    forall k: ScoreKey ensures c.keyToBytes(k).Ok? && c.bytesToKey(c.keyToBytes(k).value) == Ok(k) {
      assert c.keyToBytes(k) == ScoreKeyToBytes(k);
      var b := c.keyToBytes(k).value;
      assert b[0..2] == b[..2] && b[2..6] == b[2..];
    }
    forall v: I64 ensures c.valueToBytes(v).Ok? && c.bytesToValue(c.valueToBytes(v).value) == Ok(v) {
      assert c.valueToBytes(v) == ScoreValueToBytes(v);
      var b := c.valueToBytes(v).value;
      assert b[0..8] == b;
    }
    forall a: ScoreKey, b: ScoreKey ensures ScoreLess(a, b) <==> Less(KeyBytes(c, a), KeyBytes(c, b)) {
      ScoreKeyOrder(a, b);
    }
  }

  lemma ScoreKeyOrder(a: ScoreKey, b: ScoreKey)
    ensures ScoreLess(a, b) <==> Less(KeyBytes(ScoreCodec(), a), KeyBytes(ScoreCodec(), b))
  {
    Pow256Widths();
    LessConcat(ToBE(a.0, 2), ToBE(a.1, 4), ToBE(b.0, 2), ToBE(b.1, 4));
    BEOrder(a.0, b.0, 2);
    BEOrder(a.1, b.1, 4);
    if ToBE(a.0, 2) == ToBE(b.0, 2) {
      BEInjective(a.0, b.0, 2);
    }
  }

  // ---------------------------------------------------------------- Simple

  /**
   * `Simple`'s value is a `String`; its bytes are its UTF-8 encoding. The model
   * keeps the bytes themselves, so the value codec is the identity.
   */
  type SimpleRow = Row<U16, Bytes>

  predicate SimpleLess(a: U16, b: U16)
  {
    a < b
  }

  function SimpleKeyToBytes(k: U16): (r: Result<Bytes, Error>)
    ensures r.Ok? && |r.value| == 2 && FromBE(r.value) == k
  {
    Pow256Widths();
    FromToBE(k, 2);
    Ok(ToBE(k, 2))
  }

  function SimpleValueToBytes(v: Bytes): (r: Result<Bytes, Error>)
    ensures r == Ok(v)
  {
    Ok(v)
  }

  /** `bytes_to_key` as written: `bytes[0..2]`. */
  function SimpleBytesToKeyAsWritten(b: Bytes): (r: Outcome<U16>)
    ensures r.Panicked? <==> |b| < 2
    ensures r.Returned? ==> r.result.Ok?
  {
    if |b| < 2 then Panicked
    else
      FromBEWidths(b[0..2]);
      Returned(Ok(FromBE(b[0..2])))
  }

  /** `bytes_to_key` as intended. */
  function SimpleBytesToKey(b: Bytes): (r: Result<U16, Error>)
    ensures r.Err? <==> |b| < 2
    ensures r.Err? ==> r.error == InvalidValue(b)
    ensures SimpleBytesToKeyAsWritten(b).Returned? ==> r == SimpleBytesToKeyAsWritten(b).result
    ensures r.Ok? ==> SimpleKeyToBytes(r.value).value == b[..2]
  {
    if |b| < 2 then Err(InvalidValue(b))
    else
      FromBEWidths(b[0..2]);
      ToFromBE(b[0..2]);
      Pow256Widths();
      Ok(FromBE(b[0..2]))
  }

  function SimpleBytesToValue(b: Bytes): (r: Result<Bytes, Error>)
    ensures r == Ok(b)
  {
    Ok(b)
  }

  lemma SimpleDecoderPanicsOnShortInput()
    ensures SimpleBytesToKeyAsWritten([7]) == Panicked
    ensures SimpleBytesToKey([7]) == Err(InvalidValue([7]))
  {
  }

  function SimpleCodec(): Codec<U16, Bytes>
  {
    Codec(SimpleKeyToBytes, SimpleValueToBytes, SimpleBytesToKey, SimpleBytesToValue)
  }

  /** `Simple`: default partition, no merge operator. */
  function SimpleEntry(): (e: Entry<U16, Bytes>)
    ensures e.name.None? && e.associativeMerge.None?
  {
    WithDefaults(SimpleCodec())
  }

  lemma SimpleCodecLawful()
    ensures Lawful(SimpleCodec(), SimpleLess)
  {
    var c := SimpleCodec();
    Pow256Widths();
    forall k: U16 ensures c.keyToBytes(k).Ok? && c.bytesToKey(c.keyToBytes(k).value) == Ok(k) {
      assert c.keyToBytes(k) == SimpleKeyToBytes(k);
      var b := c.keyToBytes(k).value;
      assert b[0..2] == b;
    }
    forall a: U16, b: U16 ensures SimpleLess(a, b) <==> Less(KeyBytes(c, a), KeyBytes(c, b)) {
      BEOrder(a, b, 2);
    }
  }
}
