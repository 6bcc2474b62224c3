/**
 * The open modes of the reworked database handle: four type-level markers,
 * each reporting its value-level `ModeType`, and the primary/non-primary split.
 */
module ReworkMode {

  /** The value-level mode. */
  datatype ModeType = ReadOnly | Secondary | Writeable | Transactional

  /** `is_primary`: a primary instance owns the database; read-only and secondary instances follow it. */
  predicate IsPrimary(m: ModeType)
  {
    m == Writeable || m == Transactional
  }

  /** The two modes that open a database without owning it are exactly the non-primary ones. */
  lemma NonPrimaryModes(m: ModeType)
    ensures !IsPrimary(m) <==> (m == ReadOnly || m == Secondary)
  {
  }

  /** The four type-level markers `ReadOnly`, `Secondary`, `Writeable` and `Transactional`. */
  datatype Marker = ReadOnlyMarker | SecondaryMarker | WriteableMarker | TransactionalMarker

  /** `Mode::mode_type` for each marker. */
  function ModeTypeOf(m: Marker): (t: ModeType)
    ensures IsPrimary(t) <==> (m == WriteableMarker || m == TransactionalMarker)
  {
    match m
    case ReadOnlyMarker => ReadOnly
    case SecondaryMarker => Secondary
    case WriteableMarker => Writeable
    case TransactionalMarker => Transactional
  }

  /** Distinct markers report distinct mode types. */
  lemma ModeTypeOfInjective(a: Marker, b: Marker)
    ensures ModeTypeOf(a) == ModeTypeOf(b) ==> a == b
  {
  }

  /** Every mode type is reported by some marker. */
  lemma ModeTypeOfOnto(t: ModeType)
    ensures exists m: Marker :: ModeTypeOf(m) == t
  {
    var m := match t
      case ReadOnly => ReadOnlyMarker
      case Secondary => SecondaryMarker
      case Writeable => WriteableMarker
      case Transactional => TransactionalMarker;
    assert ModeTypeOf(m) == t;
  }
}
