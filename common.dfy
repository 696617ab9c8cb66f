/** Values shared by every part of the download counter. */
module Common {

  datatype Option<+T> = None | Some(value: T)

  datatype Result<+T, +E> = Success(value: T) | Failure(error: E)

  /** A naive (time-zone free) wall-clock instant, counted in microseconds
      from 0001-01-01 00:00:00, the earliest value Python's `datetime` can
      hold. Every timestamp the program can meet is therefore at least
      `MinTimestamp`. */
  type Timestamp = nat

  /** `datetime.min`, which is also `datetime(1, 1, 1)`: the watermark of an
      empty table and the threshold of a run that applies no watermark. */
  const MinTimestamp: Timestamp := 0
}
