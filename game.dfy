/**
 * The game state of `game/game.go`: the player (this revision's Move and
 * MoveTo return the PREVIOUS position), the map it walks on, the read
 * accessors the view polls, and the per-event step of the event loop.
 */
module Game {
  import opened GoInt
  import opened Wrappers
  import opened Clamping
  import opened Dungeon
  import opened Events

  class Player {
    var x: Int64
    var y: Int64

    /** The composite literal `Player{x: x0, y: y0}`. */
    constructor (x0: Int64, y0: Int64)
      ensures x == x0 && y == y0
    {
      x, y := x0, y0;
    }

    function Pos(): (p: (Int64, Int64))
      reads this
      ensures p == (X(), Y())
    {
      (x, y)
    }

    function X(): (v: Int64)
      reads this
    {
      x
    }

    function Y(): (v: Int64)
      reads this
    {
      y
    }

    /** Jump to `(newX, newY)` without any bounds check; answers where the player was. */
    method MoveTo(newX: Int64, newY: Int64) returns (oldX: Int64, oldY: Int64)
      modifies this
      ensures Pos() == (newX, newY)
      ensures (oldX, oldY) == old(Pos())
    {
      oldX, oldY := Pos().0, Pos().1;
      x := newX;
      y := newY;
    }

    /** Step by `(offX, offY)` with Go's wrapping addition; answers where the player was. */
    method Move(offX: Int64, offY: Int64) returns (oldX: Int64, oldY: Int64)
      modifies this
      ensures Pos() == (Add64(old(x), offX), Add64(old(y), offY))
      ensures MinInt64 <= old(x) + offX <= MaxInt64 && MinInt64 <= old(y) + offY <= MaxInt64 ==>
                Pos() == (old(x) + offX, old(y) + offY)
      ensures (oldX, oldY) == old(Pos())
    {
      oldX, oldY := Pos().0, Pos().1;
      x := Add64(oldX, offX);
      y := Add64(oldY, offY);
    }

    /**
     * Restrict the position to `[0, maxX) × [0, maxY)` and answer the
     * clamped position. An in-bounds player does not move.
     */
    method Clamp(maxX: Int64, maxY: Int64) returns (cx: Int64, cy: Int64)
      modifies this
      ensures Pos() == (ClampCoord(old(x), maxX), ClampCoord(old(y), maxY))
      ensures (cx, cy) == Pos()
      ensures maxX >= 1 && maxY >= 1 ==> 0 <= x < maxX && 0 <= y < maxY
      ensures 0 <= old(x) < maxX && 0 <= old(y) < maxY ==> Pos() == old(Pos())
    {
      if x < 0 {
        x := 0;
      }
      if y < 0 {
        y := 0;
      }
      if x > Sub64(maxX, 1) {
        x := Sub64(maxX, 1);
      }
      if y > Sub64(maxY, 1) {
        y := Sub64(maxY, 1);
      }
      cx, cy := x, y;
      if maxX >= 1 && maxY >= 1 {
        ClampInRange(old(x), maxX);
        ClampInRange(old(y), maxY);
      }
    }
  }

  /** GetMapTile's error: the query and the bounds it missed. */
  datatype BoundsError = OutOfBounds(x: Int64, y: Int64, maxX: Int64, maxY: Int64)

  /** `pos` is a square of a `width × height` map. */
  predicate Inside(pos: (Int64, Int64), width: Int64, height: Int64)
  {
    0 <= pos.0 < width && 0 <= pos.1 < height
  }

  /**
   * What one event does to the player's position on a `width × height` map:
   * a movement always lands inside a non-empty map; a key press changes nothing.
   */
  function Step(pos: (Int64, Int64), e: Event, width: Int64, height: Int64): (r: (Int64, Int64))
    ensures e.Movement? && width >= 1 && height >= 1 ==> Inside(r, width, height)
    ensures e.KeyPress? ==> r == pos
  {
    match e
    case Movement(offX, offY) =>
      if width >= 1 && height >= 1 then
        ClampInRange(Add64(pos.0, offX), width);
        ClampInRange(Add64(pos.1, offY), height);
        (ClampCoord(Add64(pos.0, offX), width), ClampCoord(Add64(pos.1, offY), height))
      else
        (ClampCoord(Add64(pos.0, offX), width), ClampCoord(Add64(pos.1, offY), height))
    case KeyPress(_) => pos
  }

  /**
   * The position after handling `events` in channel order. Once inside the
   * map the player stays inside, and after any movement on a non-empty map
   * the player is inside wherever it started.
   */
  function Run(pos: (Int64, Int64), events: seq<Event>, width: Int64, height: Int64): (r: (Int64, Int64))
    ensures Inside(pos, width, height) ==> Inside(r, width, height)
    ensures width >= 1 && height >= 1 && (exists k :: 0 <= k < |events| && events[k].Movement?) ==> Inside(r, width, height)
    decreases |events|
  {
    if |events| == 0 then pos
    else
      var rest := events[1..];
      assert forall k :: 1 <= k < |events| ==> events[k] == rest[k - 1];
      Run(Step(pos, events[0], width, height), rest, width, height)
  }

  /** Handling `a` and then `b` is handling `a + b`: events are applied one at a time, in order. */
  lemma {:induction false} RunAppend(pos: (Int64, Int64), a: seq<Event>, b: seq<Event>, width: Int64, height: Int64)
    ensures Run(pos, a + b, width, height) == Run(Run(pos, a, width, height), b, width, height)
    decreases |a|
  {
    if |a| > 0 {
      assert (a + b)[0] == a[0];
      assert (a + b)[1..] == a[1..] + b;
      RunAppend(Step(pos, a[0], width, height), a[1..], b, width, height);
    } else {
      assert a + b == b;
    }
  }

  /** Key presses alone never move the player. */
  lemma {:induction false} KeyPressesKeepPosition(pos: (Int64, Int64), events: seq<Event>, width: Int64, height: Int64)
    requires forall k :: 0 <= k < |events| ==> events[k].KeyPress?
    ensures Run(pos, events, width, height) == pos
    decreases |events|
  {
    if |events| > 0 {
      KeyPressesKeepPosition(pos, events[1..], width, height);
    }
  }

  /**
   * From the start square `(1, 1)` of a 5 × 5 map, one diagonal step to the
   * upper left reaches the corner and a second one is clamped back to it.
   */
  lemma CornerScenario()
    ensures Run((1, 1), [Movement(-1, -1)], 5, 5) == (0, 0)
    ensures Run((1, 1), [Movement(-1, -1), Movement(-1, -1)], 5, 5) == (0, 0)
  {
    assert Step((1, 1), Movement(-1, -1), 5, 5) == (0, 0);
    assert Step((0, 0), Movement(-1, -1), 5, 5) == (0, 0);
    assert [Movement(-1, -1), Movement(-1, -1)][1..] == [Movement(-1, -1)];
  }

  class State {
    const mapp: Map
    const player: Player

    /** The map comes in as a parameter; the source uses a fixed map not part of this model. */
    constructor NewGame(m: Map)
      requires m.Valid()
      ensures mapp == m && mapp.Valid() && fresh(player) && player.Pos() == (1, 1)
    {
      mapp := m;
      player := new Player(1, 1);
    }

    function GetPlayerPos(): (p: (Int64, Int64))
      reads this, player
      ensures p == (player.x, player.y)
    {
      player.Pos()
    }

    function GetMapDimensions(): (d: (Int64, Int64))
      reads this
      ensures d == (mapp.Width, mapp.Height)
    {
      mapp.Dimensions()
    }

    /**
     * The tile the view draws at `(x, y)`: an error outside the map, the
     * player's glyph on the player's square (whatever lies beneath), the
     * map's tile elsewhere.
     */
    function GetMapTile(x: Int64, y: Int64): (r: Result<Tile, BoundsError>)
      requires mapp.Valid()
      reads this, player
      ensures r.Failure? <==> x < 0 || x >= mapp.Width || y < 0 || y >= mapp.Height
      ensures r.Failure? ==> r.error == OutOfBounds(x, y, mapp.Width, mapp.Height)
      ensures r.Success? && (x, y) == player.Pos() ==> r.value == PlayerTile
      ensures r.Success? && (x, y) != player.Pos() ==> mapp.IsCell(Neighbour(r.value, x, y))
    {
      var (maxX, maxY) := GetMapDimensions();
      if x < 0 || x >= maxX || y < 0 || y >= maxY then
        Failure(OutOfBounds(x, y, maxX, maxY))
      else
        var (playerX, playerY) := GetPlayerPos();
        if x == playerX && y == playerY then
          Success(PlayerTile)
        else
          mapp.GridIndex(x, y);
          Success(mapp.GetTile(x, y))
    }

    /** One turn of the event loop: a movement moves and clamps the player, a key press does nothing. */
    method HandleEvent(e: Event)
      modifies player
      ensures player.Pos() == Step(old(player.Pos()), e, mapp.Width, mapp.Height)
      ensures e.KeyPress? ==> player.Pos() == old(player.Pos())
      ensures e.Movement? && mapp.Width >= 1 && mapp.Height >= 1 ==> Inside(player.Pos(), mapp.Width, mapp.Height)
    {
      match e
      case Movement(offX, offY) =>
        var oldX, oldY := player.Move(offX, offY);
        var newX, newY := player.Clamp(mapp.Width, mapp.Height);
      case KeyPress(key) =>
    }

    /** The consumer loop, run over the events the channel delivers, in order. */
    method ProcessEvents(events: seq<Event>)
      modifies player
      ensures player.Pos() == Run(old(player.Pos()), events, mapp.Width, mapp.Height)
      ensures Inside(old(player.Pos()), mapp.Width, mapp.Height) ==> Inside(player.Pos(), mapp.Width, mapp.Height)
    {
      var i := 0;
      while i < |events|
        invariant 0 <= i <= |events|
        invariant Run(player.Pos(), events[i..], mapp.Width, mapp.Height)
               == Run(old(player.Pos()), events, mapp.Width, mapp.Height)
      {
        assert events[i..][1..] == events[i + 1..];
        HandleEvent(events[i]);
        i := i + 1;
      }
    }
  }
}
