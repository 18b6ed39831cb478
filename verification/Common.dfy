/** Small types shared by the models. */
module Common {

  datatype Option<+T> = None | Some(value: T)

  datatype Result<+T, +E> = Ok(value: T) | Err(error: E)

  /** A normalised chain and address, by its rank in the collation order of identity keys. */
  type Identity = nat

  /** Milliseconds since the epoch. */
  type Time = int

  const HOUR: int := 3_600_000
  const DAY: int := 86_400_000

  function Max(a: int, b: int): int { if a < b then b else a }

  function Min(a: int, b: int): int { if a < b then a else b }
}
