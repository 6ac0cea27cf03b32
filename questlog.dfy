/**
 * The quest log of `game/questlog.go`: an append-only list of timestamped
 * entries, read by index.
 */
module Quests {
  import opened GoInt
  import opened Wrappers
  import opened Fmt

  /** The wall-clock time an entry was made; the model never looks inside it. */
  datatype Timestamp = Timestamp(unixNanos: int)

  datatype QuestLogItem = QuestLogItem(time: Timestamp, icon: char, msg: string)

  /** GetItem's error: the rejected index and the length it was checked against. */
  datatype IndexError = BadIndex(index: Int64, length: int)

  /** The icon of a movement entry. */
  const MovementIcon := '*'

  class QuestLog {
    var items: seq<QuestLogItem>

    /** The zero `QuestLog{}`: no entries. */
    constructor ()
      ensures items == []
    {
      items := [];
    }

    /** The number of items recorded so far. */
    function Len(): (n: nat)
      reads this
      ensures n == |items|
    {
      |items|
    }

    /** Entry `i`, when `0 <= i < Len()`; an error for any other index. */
    function GetItem(i: Int64): (r: Result<QuestLogItem, IndexError>)
      reads this
      ensures r.Failure? <==> i < 0 || i >= Len()
      ensures r.Failure? ==> r.error == BadIndex(i, Len())
      ensures r.Success? ==> r.value == items[i]
    {
      if i < 0 || i >= |items| then Failure(BadIndex(i, |items|)) else Success(items[i])
    }

    /** Append one entry: the log grows by one, earlier entries stay where they are. */
    method AddItem(item: QuestLogItem)
      modifies this
      ensures items == old(items) + [item]
      ensures Len() == old(Len()) + 1
      ensures old(Len()) <= MaxInt64 ==> GetItem(old(Len())) == Success(item)
      ensures forall k: Int64 :: 0 <= k < old(Len()) ==> GetItem(k) == old(GetItem(k))
    {
      items := items + [item];
    }

    /** Log a move from `(oldX, oldY)` to `(x, y)`, stamped `now`. */
    method RecordPlayerMovement(x: Int64, y: Int64, oldX: Int64, oldY: Int64, now: Timestamp)
      modifies this
      ensures items == old(items) + [QuestLogItem(now, MovementIcon, MovementMessage(oldX, oldY, x, y))]
      ensures ParseMovement(items[|items| - 1].msg) == Some((oldX as int, oldY as int, x as int, y as int))
    {
      var i := QuestLogItem(now, MovementIcon, MovementMessage(oldX, oldY, x, y));
      AddItem(i);
      MovementMessageRoundTrip(oldX, oldY, x, y);
    }
  }
}
