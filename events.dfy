/** The events the view sends to the game state: the two kinds `game/events` declares. */
module Events {
  import opened GoInt

  datatype Event =
    | Movement(OffX: Int64, OffY: Int64)
    | KeyPress(Key: char)
}
