/** Result types shared by the modules. */
module Common {
  datatype Option<+T> = None | Some(value: T) {
    function GetOr(default: T): T {
      match this
      case Some(v) => v
      case None => default
    }
  }

  datatype Result<+T, +E> = Ok(value: T) | Err(error: E)

  /** `Number.MAX_SAFE_INTEGER`. */
  const MAX_SAFE_INTEGER := 0x1F_FFFF_FFFF_FFFF

  function Max(a: int, b: int): int { if a < b then b else a }

  function Min(a: int, b: int): int { if a < b then a else b }
}
