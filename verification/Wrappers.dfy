/** Small definitions the other modules share. */
module Wrappers {

  datatype Option<+T> = None | Some(value: T)

  function Max(a: int, b: int): int { if a < b then b else a }

  /** A message, with or without a number in the middle. */
  datatype Text = Words(words: string) | Counted(before: string, number: nat, after: string)
}
