// Types shared by every module of the model: players, optional values, results.

module Types {
  datatype Option<+T> = None | Some(value: T)

  datatype Result<+T, +E> = Ok(value: T) | Err(error: E)

  // A slot of a match, and also the side that wins it.
  datatype Player = A | B {
    function Other(): Player { if this == A then B else A }
  }

  // A player name as it can sit in a slot: null is None, and the empty string never gets in.
  type Name = s: string | s != "" witness "?"
}
