/** The two parties of a conversation. */
module Parties {
  datatype Party = Alice | Bob

  function Other(p: Party): (q: Party) {
    if p == Alice then Bob else Alice
  }
}
