/** An optional value, used wherever the game has an "absent" value:
    an answer text that does not parse as an integer, or a leaderboard with no
    best record. */
module Wrappers {

  datatype Option<+T> = None | Some(value: T)
}
