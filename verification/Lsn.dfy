/** Optional values and log sequence numbers, shared by every other module. */
module Lsns {

  datatype Option<+T> = None | Some(value: T)

  /** A position in the write-ahead log. File numbers start at 1, so file 0 stands for "no position". */
  datatype Lsn = Lsn(file: nat, offset: nat) {

    /** `log_compare(this, other) < 0`: the file decides first, then the offset. */
    predicate Before(other: Lsn) {
      file < other.file || (file == other.file && offset < other.offset)
    }

    predicate AtMost(other: Lsn) {
      this == other || Before(other)
    }
  }

  const ZERO_LSN := Lsn(0, 0)

  function MaxInt(a: int, b: int): int { if a < b then b else a }
}
