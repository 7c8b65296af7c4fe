/** What the storage modules share: bytes, stores as maps from key or file name to bytes, and the
    outcomes of a call to a backend. */
module Blobs {
  newtype Byte = b: int | 0 <= b < 256

  type Bytes = seq<Byte>

  type Blobs = map<string, Bytes>

  /** How a call to a backend went: done, failed without effect, or failed although it took effect. */
  datatype Outcome = Done | Failed | FailedLate
}
