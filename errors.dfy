/** Errors raised while building a machine or encoding a character, and a Result to carry them. */
module Errors {

  /** The ways building a plugboard or a reflector, or encoding a character, can fail. */
  datatype Error =
    | NotFound(letter: char)             // a lookup (`index`) did not find the letter
    | MalformedPair(token: string)       // a plugboard token that is not two characters long
    | RepeatedLetter(token: string)      // a plugboard pair reusing a letter, or pairing a letter with itself
    | AsymmetricReflector(letter: char)  // a reflector whose encode and decode differ on a letter

  datatype Option<+T> = None | Some(value: T)

  datatype Result<+T> = Ok(value: T) | Err(error: Error)
}
