/** Value types shared by every part of the tinypng-compress model. */
module Types {

  datatype Option<T> = None | Some(value: T)

  newtype byte = x: int | 0 <= x < 256

  /** The content of a file. */
  type Bytes = seq<byte>

  /**
   * A normalised path, written as the list of its components. Directory
   * entries have non-empty names without separators, so rendering a path
   * with '/' is injective and two paths are the same key of the ledger
   * exactly when their component lists are equal.
   */
  type Path = seq<string>

  /** A content digest (the hex MD5 string in the tool). */
  type Digest = string

  function Min(a: int, b: int): int
  {
    if a <= b then a else b
  }
}
