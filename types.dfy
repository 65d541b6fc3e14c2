/** The value types of the game: symbols, players, grid cells and canvas positions. */
module Types {

  /** The mark a player picks on the symbol screen. */
  datatype Symbol = X | O

  /** Whose turn it is, and who made a move. */
  datatype Player = Player1 | Player2

  /** A grid address: column `x` and row `y`, any integers; the board is the cells satisfying `Grid.InGrid`. */
  datatype Cell = Cell(x: int, y: int)

  /** A point relative to the canvas' top-left corner, in the units of the canvas width (not CSS-scaled). */
  datatype Position = Position(x: real, y: real)

  /** A value that may be `null`. */
  datatype Option<T> = None | Some(value: T)

  /** The outcome of an operation that can throw. */
  datatype Result<T, E> = Ok(value: T) | Err(error: E)

  /** The outcome of a statement that returns nothing or throws. */
  datatype Outcome<E> = Pass | Fail(error: E)
}
