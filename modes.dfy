/** The type-level open modes of a database handle and the capability to write. */
module Modes {

  /** The `ReadOnly` and `Writeable` markers. */
  datatype Mode = ReadOnly | Writeable

  /** `Mode::is_read_only`. */
  predicate IsReadOnly(m: Mode)
  {
    match m
    case ReadOnly => true
    case Writeable => false
  }

  /** `IsWriteable`: implemented by the `Writeable` marker alone. */
  predicate IsWriteable(m: Mode)
  {
    m == Writeable
  }

  /** Every writeable mode reports that it is not read-only, and the read-only mode cannot write. */
  lemma WriteableIsNotReadOnly(m: Mode)
    ensures IsWriteable(m) ==> !IsReadOnly(m)
    ensures IsReadOnly(m) <==> !IsWriteable(m)
  {
  }
}
