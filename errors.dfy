/**
 * The layer's error type: engine failures, undecodable bytes (carrying the
 * offending bytes) and unknown partition names. Each entity's own error type
 * only needs conversions from these, so the model uses this type for all of them.
 */
module Errors {
  import opened Bytes

  /** An engine-side failure (I/O, corruption, a failed open). */
  datatype EngineError = EngineError(message: string)

  datatype Error =
    | Db(cause: EngineError)
    | InvalidKey(keyBytes: Bytes)
    | InvalidValue(valueBytes: Bytes)
    | InvalidCfName(name: string)
}
