/** Small datatypes shared by the other modules. */
module Common {

  /** A value that may be absent, like a nullable column or a Python `None`. */
  datatype Option<+T> = None | Some(value: T)

  /** The outcome of an operation that can raise. */
  datatype Result<+T> = Success(value: T) | Failure(message: string)

  function Min(a: int, b: int): int { if a < b then a else b }

  function Max(a: int, b: int): int { if a < b then b else a }

  /** What a coordinate text can stand for. */
  datatype Coordinates = TileCoord(z: int, x: int, y: int, n: int)

  /** A tile coordinate; `n` is the side of a metatile, 1 for a plain tile. */
  type TileCoord = c: Coordinates | c.n >= 0 witness TileCoord(0, 0, 0, 1)
}
