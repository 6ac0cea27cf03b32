/**
 * The later revision of the player, `game/player.go`: the same position and
 * clamping, but Move and MoveTo answer the NEW position.
 */
module GamePlayer {
  import opened GoInt
  import opened Clamping

  class Player {
    var x: Int64
    var y: Int64

    /** The composite literal `Player{x: x0, y: y0}`. */
    constructor (x0: Int64, y0: Int64)
      ensures x == x0 && y == y0
    {
      x, y := x0, y0;
    }

    function Pos(): (p: (Int64, Int64))
      reads this
      ensures p == (X(), Y())
    {
      (x, y)
    }

    function X(): (v: Int64)
      reads this
    {
      x
    }

    function Y(): (v: Int64)
      reads this
    {
      y
    }

    /** Jump to `(newX, newY)` without any bounds check; answers the new position. */
    method MoveTo(newX: Int64, newY: Int64) returns (rx: Int64, ry: Int64)
      modifies this
      ensures Pos() == (newX, newY)
      ensures (rx, ry) == Pos()
    {
      x := newX;
      y := newY;
      rx, ry := x, y;
    }

    /** Step by `(offX, offY)` with Go's wrapping addition; answers the new position. */
    method Move(offX: Int64, offY: Int64) returns (rx: Int64, ry: Int64)
      modifies this
      ensures Pos() == (Add64(old(x), offX), Add64(old(y), offY))
      ensures MinInt64 <= old(x) + offX <= MaxInt64 && MinInt64 <= old(y) + offY <= MaxInt64 ==>
                Pos() == (old(x) + offX, old(y) + offY)
      ensures (rx, ry) == Pos()
    {
      var oldX, oldY := x, y;
      x := Add64(oldX, offX);
      y := Add64(oldY, offY);
      rx, ry := x, y;
    }

    /**
     * Restrict the position to `[0, maxX) × [0, maxY)` and answer the
     * clamped position. An in-bounds player does not move.
     */
    method Clamp(maxX: Int64, maxY: Int64) returns (cx: Int64, cy: Int64)
      modifies this
      ensures Pos() == (ClampCoord(old(x), maxX), ClampCoord(old(y), maxY))
      ensures (cx, cy) == Pos()
      ensures maxX >= 1 && maxY >= 1 ==> 0 <= x < maxX && 0 <= y < maxY
      ensures 0 <= old(x) < maxX && 0 <= old(y) < maxY ==> Pos() == old(Pos())
    {
      if x < 0 {
        x := 0;
      }
      if y < 0 {
        y := 0;
      }
      if x > Sub64(maxX, 1) {
        x := Sub64(maxX, 1);
      }
      if y > Sub64(maxY, 1) {
        y := Sub64(maxY, 1);
      }
      cx, cy := x, y;
      if maxX >= 1 && maxY >= 1 {
        ClampInRange(old(x), maxX);
        ClampInRange(old(y), maxY);
      }
    }
  }

  /** A client's view of the contracts: clamping a second time changes nothing. */
  method ClampTwice(p: Player, maxX: Int64, maxY: Int64) returns (first: (Int64, Int64), second: (Int64, Int64))
    modifies p
    ensures first == second == p.Pos()
  {
    ClampIdempotent(p.x, maxX);
    ClampIdempotent(p.y, maxY);
    var x1, y1 := p.Clamp(maxX, maxY);
    var x2, y2 := p.Clamp(maxX, maxY);
    first, second := (x1, y1), (x2, y2);
  }
}
