/**
 * Dungeon maps: a `Width × Height` grid of tile codes stored flat, cell
 * `(x, y)` at index `x + y * Width`, the fixed code/glyph tables, the two
 * neighbour queries and the random generator.
 */
module Dungeon {
  import opened GoInt
  import opened Wrappers

  type TileCode = Int64

  /** A tile is its display glyph. */
  datatype Tile = Tile(repr: char)

  const GroundTile := Tile('.')
  const WallTile := Tile('#')
  const MossTile := Tile('~')
  const StumpTile := Tile('=')
  const PlayerTile := Tile('@')

  /** Go's zero `Tile{}`: what a lookup of a code missing from `codeToTile` yields. */
  const ZeroTile := Tile(0 as char)

  const codeToTile: map<TileCode, Tile> := map[0 := GroundTile, 1 := WallTile, 2 := MossTile, 3 := StumpTile]
  const tileToCode: map<char, TileCode> := map['.' := 0, '#' := 1, '~' := 2, '=' := 3]

  /** `codeToTile[c]`, with Go's zero value for an absent key. */
  function CodeToTile(c: TileCode): (t: Tile)
    ensures c in codeToTile <==> 0 <= c <= 3
    ensures 0 <= c <= 3 ==> t.repr in tileToCode && tileToCode[t.repr] == c
    ensures !(0 <= c <= 3) ==> t == ZeroTile
  {
    if c in codeToTile then codeToTile[c] else ZeroTile
  }

  /** `tileToCode[r]`, with Go's zero value for an absent key. */
  function TileToCode(r: char): (c: TileCode)
    ensures r in tileToCode <==> r in {'.', '#', '~', '='}
    ensures 0 <= c <= 3 && codeToTile[c].repr == (if r in tileToCode then r else '.')
  {
    if r in tileToCode then tileToCode[r] else 0
  }

  /** The two tables are inverse bijections between codes 0..3 and the glyphs `. # ~ =`. */
  lemma TablesInverse()
    ensures codeToTile.Keys == {0, 1, 2, 3}
    ensures tileToCode.Keys == {'.', '#', '~', '='}
    ensures forall c :: c in codeToTile ==> CodeToTile(c).repr in tileToCode && TileToCode(CodeToTile(c).repr) == c
    ensures forall r :: r in tileToCode ==> TileToCode(r) in codeToTile && CodeToTile(TileToCode(r)).repr == r
    ensures PlayerTile.repr !in tileToCode
  {
    assert codeToTile.Keys == {0, 1, 2, 3};
    assert tileToCode.Keys == {'.', '#', '~', '='};
  }

  /** The eight neighbour offsets, clockwise from the upper left, in the order both queries visit them. */
  const MooreOffsets: seq<(int, int)> := [(-1, -1), (0, -1), (1, -1), (1, 0), (1, 1), (0, 1), (-1, 1), (-1, 0)]

  /** The eight candidate cells around `(x, y)`. */
  function Ring(x: int, y: int): (cs: seq<(int, int)>)
    ensures |cs| == 8
  {
    seq(8, k requires 0 <= k < 8 => (x + MooreOffsets[k].0, y + MooreOffsets[k].1))
  }

  datatype Neighbour = Neighbour(tile: Tile, X: Int64, Y: Int64)

  /** One entry of GetSurroundingTiles' `positions` array. */
  datatype CellPosition = CellPosition(index: int, x: int, y: int)

  /**
   * The wrap of GetSurroundingTiles' `toIndex`, corrected: one step below 0
   * goes to `n - 1`, one step past `n - 1` comes back to 0 (see the lemma
   * WrapAgreesInRange for where it coincides with the source).
   */
  function WrapCoord(c: int, n: int): (r: int)
    ensures n >= 1 && -n <= c < 2 * n ==> r == c % n && 0 <= r < n
  {
    var lifted := if c < 0 then n + c else c;
    if lifted >= n then lifted - n else lifted
  }

  /** The same wrap as the source writes it: `x = m.Width - x` for `x >= m.Width`. */
  function WrapCoordAsWritten(c: int, n: int): (r: int)
    ensures c < 0 ==> r == n + c
    ensures 0 <= c < n ==> r == c
    ensures 0 <= c && n <= c ==> r == n - c
  {
    var lifted := if c < 0 then n + c else c;
    if lifted >= n then n - lifted else lifted
  }

  /** For every coordinate up to `n` the two wraps agree, so in-bounds centres are unaffected. */
  lemma WrapAgreesInRange(c: int, n: int)
    requires c <= n
    ensures WrapCoordAsWritten(c, n) == WrapCoord(c, n)
  {
  }

  /**
   * Two steps past the edge the source's wrap goes negative: on a 3-wide,
   * 4-high map the upper-right neighbour `(5, 1)` of the centre `(4, 2)`
   * becomes `x = -2`, whose index `-2 + 1 * 3 = 1` is inside the 12 tiles, so
   * the source reports the cell at X = -2 instead of wrapping it to X = 2.
   */
  lemma WrapAsWrittenOvershoots()
    ensures WrapCoordAsWritten(5, 3) == -2 && WrapCoord(5, 3) == 2
    ensures var wy := WrapCoordAsWritten(1, 4); WrapCoordAsWritten(5, 3) + wy * 3 == 1
  {
  }

  datatype Map = Map(Width: Int64, Height: Int64, tiles: seq<TileCode>) {

    /** The map's invariant: one code per cell, each resolvable through `codeToTile`. */
    ghost predicate Valid()
    {
      |tiles| == Width * Height && |tiles| <= MaxInt64 &&
      forall i :: 0 <= i < |tiles| ==> tiles[i] in codeToTile
    }

    function Dimensions(): (d: (Int64, Int64))
      ensures Valid() ==> d.0 * d.1 == |tiles|
    {
      (Width, Height)
    }

    predicate InBounds(x: int, y: int)
    {
      0 <= x < Width && 0 <= y < Height
    }

    /** The flat index `x + (y * m.Width)` of cell `(x, y)`. */
    function Index(x: int, y: int): (i: int)
      ensures Width >= 1 && 0 <= x < Width ==> i % Width == x && i / Width == y
    {
      if Width >= 1 && 0 <= x < Width then
        IndexDecodes(x, y, Width);
        x + y * Width
      else
        x + y * Width
    }

    /** GetTile indexes the slice without a bounds check of its own: defined whenever the index is. */
    function GetTile(x: int, y: int): (t: Tile)
      requires 0 <= Index(x, y) < |tiles|
      ensures Valid() ==> t in codeToTile.Values && TileToCode(t.repr) == tiles[Index(x, y)]
    {
      GetTileIndex(Index(x, y))
    }

    function GetTileIndex(i: int): (t: Tile)
      requires 0 <= i < |tiles|
      ensures Valid() ==> t in codeToTile.Values && TileToCode(t.repr) == tiles[i]
    {
      TablesInverse();
      CodeToTile(tiles[i])
    }

    /** An in-bounds cell's index lies inside the slice (so Go's `int` arithmetic does not overflow on it). */
    lemma GridIndex(x: int, y: int)
      requires Valid() && InBounds(x, y)
      ensures 0 <= Index(x, y) < |tiles| <= MaxInt64
    {
      assert 0 <= y * Width <= (Height - 1) * Width by {
        MulMonotone(y, Height - 1, Width);
      }
      assert (Height - 1) * Width == Height * Width - Width;
    }

    /** Every index of the slice is the index of exactly the cell `(i % Width, i / Width)`. */
    lemma CellOfIndex(i: int)
      requires Valid() && Width >= 1 && 0 <= i < |tiles|
      ensures InBounds(i % Width, i / Width)
      ensures Index(i % Width, i / Width) == i
    {
      var x, y := i % Width, i / Width;
      DivModParts(i, Width);
      if y >= Height {
        MulMonotone(Height, y, Width);
        assert false;
      }
      GridIndex(x, y);
    }

    /** Distinct in-bounds cells have distinct indices. */
    lemma IndexInjective(x1: int, y1: int, x2: int, y2: int)
      requires Valid() && InBounds(x1, y1) && InBounds(x2, y2)
      requires Index(x1, y1) == Index(x2, y2)
      ensures x1 == x2 && y1 == y2
    {
      GridIndex(x1, y1);
      GridIndex(x2, y2);
      assert (y1 - y2) * Width == x2 - x1;
      if y1 > y2 {
        MulMonotone(1, y1 - y2, Width);
      } else if y2 > y1 {
        MulMonotone(1, y2 - y1, Width);
      }
    }

    /** `n` is the in-bounds cell `(n.X, n.Y)` together with that cell's tile. */
    predicate IsCell(n: Neighbour)
    {
      InBounds(n.X, n.Y) && 0 <= Index(n.X, n.Y) < |tiles| && n.tile == GetTile(n.X, n.Y)
    }

    /** GetNeighbours' `toIndex` closure: out-of-range cells are an error. */
    function ToIndex(x: int, y: int): (r: Result<int, string>)
      ensures r.Success? <==> InBounds(x, y)
      ensures r.Success? ==> r.value == Index(x, y)
    {
      if x < 0 || x >= Width || y < 0 || y >= Height then Failure("out of bounds")
      else Success(Index(x, y))
    }

    /** What one `addIfNotErr(c)` contributes: the cell with its tile when in bounds, nothing otherwise. */
    function Keep(c: (int, int)): (s: seq<Neighbour>)
      requires Valid()
    {
      if InBounds(c.0, c.1) then
        GridIndex(c.0, c.1);
        [Neighbour(GetTile(c.0, c.1), c.0, c.1)]
      else []
    }

    /** Keep applied to every candidate, in order. */
    function Clip(cs: seq<(int, int)>): (s: seq<Neighbour>)
      requires Valid()
    {
      if |cs| == 0 then [] else Keep(cs[0]) + Clip(cs[1..])
    }

    /** Reference definition of GetNeighbours: the in-bounds cells of the ring, in ring order. */
    function Neighbours(x: Int64, y: Int64): (s: seq<Neighbour>)
      requires Valid()
    {
      Clip(Ring(x, y))
    }

    /** Clip distributes over concatenation. */
    lemma {:induction false} ClipAppend(a: seq<(int, int)>, b: seq<(int, int)>)
      requires Valid()
      ensures Clip(a + b) == Clip(a) + Clip(b)
    {
      if |a| == 0 {
        assert a + b == b;
      } else {
        assert (a + b)[1..] == a[1..] + b;
        ClipAppend(a[1..], b);
      }
    }

    /** Extending the candidates by one extends Clip by that candidate's Keep. */
    lemma ClipSnoc(cs: seq<(int, int)>, k: int)
      requires Valid() && 0 <= k < |cs|
      ensures Clip(cs[..k + 1]) == Clip(cs[..k]) + Keep(cs[k])
    {
      assert cs[..k + 1] == cs[..k] + [cs[k]];
      ClipAppend(cs[..k], [cs[k]]);
      assert Clip([cs[k]]) == Keep(cs[k]) + Clip([cs[k]][1..]);
    }

    /** Clip keeps at most one entry per candidate, and every entry is an in-bounds candidate cell. */
    lemma {:induction false} ClipSound(cs: seq<(int, int)>)
      requires Valid()
      ensures |Clip(cs)| <= |cs|
      ensures forall j :: 0 <= j < |Clip(cs)| ==> IsCell(Clip(cs)[j]) && (Clip(cs)[j].X, Clip(cs)[j].Y) in cs
    {
      if |cs| > 0 {
        ClipSound(cs[1..]);
        if InBounds(cs[0].0, cs[0].1) {
          GridIndex(cs[0].0, cs[0].1);
        }
        var s := Clip(cs);
        assert s == Keep(cs[0]) + Clip(cs[1..]);
        forall j | 0 <= j < |s| ensures IsCell(s[j]) && (s[j].X, s[j].Y) in cs {
          if j >= |Keep(cs[0])| {
            assert s[j] == Clip(cs[1..])[j - |Keep(cs[0])|];
            assert (s[j].X, s[j].Y) in cs[1..];
          }
        }
      }
    }

    /** Every in-bounds candidate is kept. */
    lemma {:induction false} ClipComplete(cs: seq<(int, int)>, k: int)
      requires Valid() && 0 <= k < |cs| && InBounds(cs[k].0, cs[k].1)
      ensures exists j :: 0 <= j < |Clip(cs)| && Clip(cs)[j].X == cs[k].0 && Clip(cs)[j].Y == cs[k].1
    {
      var s := Clip(cs);
      assert s == Keep(cs[0]) + Clip(cs[1..]);
      if k == 0 {
        assert s[0].X == cs[0].0 && s[0].Y == cs[0].1;
      } else {
        ClipComplete(cs[1..], k - 1);
        var j :| 0 <= j < |Clip(cs[1..])| && Clip(cs[1..])[j].X == cs[k].0 && Clip(cs[1..])[j].Y == cs[k].1;
        assert s[j + |Keep(cs[0])|] == Clip(cs[1..])[j];
      }
    }

    /** When every candidate is in bounds, Clip keeps them all, in order. */
    lemma {:induction false} ClipAll(cs: seq<(int, int)>)
      requires Valid()
      requires forall k :: 0 <= k < |cs| ==> InBounds(cs[k].0, cs[k].1)
      ensures |Clip(cs)| == |cs|
      ensures forall k :: 0 <= k < |cs| ==> Clip(cs)[k].X == cs[k].0 && Clip(cs)[k].Y == cs[k].1
    {
      if |cs| > 0 {
        ClipAll(cs[1..]);
        assert Clip(cs) == Keep(cs[0]) + Clip(cs[1..]);
      }
    }

    /**
     * The closure `addIfNotErr`: append the cell and its tile when `toIndex`
     * accepts it. The ghost parameters say which candidate of `cs` this call
     * handles, so that the calls chain up to `Clip(cs)`.
     */
    method AddIfNotErr(results: seq<Neighbour>, x: int, y: int, ghost cs: seq<(int, int)>, ghost k: nat)
      returns (out: seq<Neighbour>)
      requires Valid() && k < |cs| && cs[k] == (x, y)
      requires results == Clip(cs[..k])
      ensures out == results + Keep((x, y))
      ensures out == Clip(cs[..k + 1])
    {
      ClipSnoc(cs, k);
      var r := ToIndex(x, y);
      if r.Failure? {
        return results;
      }
      GridIndex(x, y);
      out := results + [Neighbour(GetTileIndex(r.value), x, y)];
    }

    /**
     * The in-bounds Moore neighbours of `(x, y)`, clockwise from the upper
     * left; out-of-range cells are dropped.
     */
    method GetNeighbours(x: Int64, y: Int64) returns (results: seq<Neighbour>)
      requires Valid()
      ensures results == Neighbours(x, y)
    {
      ghost var ring := Ring(x, y);
      assert ring[..0] == [];
      results := [];
      results := AddIfNotErr(results, x - 1, y - 1, ring, 0);
      results := AddIfNotErr(results, x, y - 1, ring, 1);
      results := AddIfNotErr(results, x + 1, y - 1, ring, 2);
      results := AddIfNotErr(results, x + 1, y, ring, 3);
      results := AddIfNotErr(results, x + 1, y + 1, ring, 4);
      results := AddIfNotErr(results, x, y + 1, ring, 5);
      results := AddIfNotErr(results, x - 1, y + 1, ring, 6);
      results := AddIfNotErr(results, x - 1, y, ring, 7);
      assert ring[..8] == ring;
    }

    /**
     * The source computes `x-1` and `x+1` with Go's wrapping arithmetic; the
     * model's Ring uses exact integers. Wherever they differ, both are outside
     * the map, so GetNeighbours keeps the same cells either way.
     */
    lemma RingWrapHarmless(x: Int64, y: Int64, k: int)
      requires 0 <= k < 8
      ensures var gx, gy := Add64(x, MooreOffsets[k].0), Add64(y, MooreOffsets[k].1);
        (InBounds(gx, gy) <==> InBounds(Ring(x, y)[k].0, Ring(x, y)[k].1)) &&
        (InBounds(gx, gy) ==> (gx, gy) == Ring(x, y)[k])
    {
    }

    /** At most one entry per ring cell, each an in-bounds ring cell with its tile. */
    lemma NeighboursSound(x: Int64, y: Int64)
      requires Valid()
      ensures |Neighbours(x, y)| <= 8
      ensures forall j :: 0 <= j < |Neighbours(x, y)| ==>
                IsCell(Neighbours(x, y)[j]) && (Neighbours(x, y)[j].X, Neighbours(x, y)[j].Y) in Ring(x, y)
    {
      ClipSound(Ring(x, y));
    }

    /** No in-bounds ring cell is missed. */
    lemma NeighboursComplete(x: Int64, y: Int64, k: int)
      requires Valid() && 0 <= k < 8 && InBounds(Ring(x, y)[k].0, Ring(x, y)[k].1)
      ensures exists j :: 0 <= j < |Neighbours(x, y)| &&
                Neighbours(x, y)[j].X == Ring(x, y)[k].0 && Neighbours(x, y)[j].Y == Ring(x, y)[k].1
    {
      var ring := Ring(x, y);
      ClipComplete(ring, k);
      var j :| 0 <= j < |Clip(ring)| && Clip(ring)[j].X == ring[k].0 && Clip(ring)[j].Y == ring[k].1;
      assert Neighbours(x, y)[j] == Clip(ring)[j];
    }

    /** An interior cell has all eight neighbours, in ring order. */
    lemma NeighboursInterior(x: Int64, y: Int64)
      requires Valid() && 1 <= x < Width - 1 && 1 <= y < Height - 1
      ensures |Neighbours(x, y)| == 8
      ensures forall k :: 0 <= k < 8 ==>
                Neighbours(x, y)[k].X == x + MooreOffsets[k].0 && Neighbours(x, y)[k].Y == y + MooreOffsets[k].1
    {
      var ring := Ring(x, y);
      forall k | 0 <= k < 8
        ensures ring[k] == (x + MooreOffsets[k].0, y + MooreOffsets[k].1) && InBounds(ring[k].0, ring[k].1)
      {
      }
      ClipAll(ring);
    }

    /** GetSurroundingTiles' `makePosition`: wrap both coordinates and index the wrapped cell. */
    function MakePosition(x: int, y: int): (p: CellPosition)
      ensures p.index == Index(p.x, p.y)
      ensures Width >= 1 && -Width <= x < 2 * Width ==> p.x == x % Width
      ensures Height >= 1 && -Height <= y < 2 * Height ==> p.y == y % Height
    {
      var wx := WrapCoord(x, Width);
      var wy := WrapCoord(y, Height);
      CellPosition(wx + wy * Width, wx, wy)
    }

    /** A one-step neighbour of an in-bounds cell wraps to `(x + dx) mod Width, (y + dy) mod Height`. */
    lemma PositionWraps(x: Int64, y: Int64, dx: int, dy: int)
      requires Valid() && InBounds(x, y)
      requires -1 <= dx <= 1 && -1 <= dy <= 1
      ensures var p := MakePosition(x + dx, y + dy);
        p.x == (x + dx) % Width && p.y == (y + dy) % Height &&
        InBounds(p.x, p.y) && p.index == Index(p.x, p.y) && 0 <= p.index < |tiles|
    {
      var p := MakePosition(x + dx, y + dy);
      GridIndex(p.x, p.y);
    }

    /**
     * The eight Moore neighbours of an in-bounds cell with out-of-range
     * coordinates wrapped around the edges (the map as a torus).
     */
    method GetSurroundingTiles(x: Int64, y: Int64) returns (r: seq<Neighbour>)
      requires Valid() && InBounds(x, y)
      ensures |r| == 8
      ensures forall k :: 0 <= k < 8 ==>
                r[k].X == (x + MooreOffsets[k].0) % Width &&
                r[k].Y == (y + MooreOffsets[k].1) % Height &&
                IsCell(r[k])
    {
      var positions := seq(8, k requires 0 <= k < 8 => MakePosition(x + MooreOffsets[k].0, y + MooreOffsets[k].1));
      var results := new Neighbour[8];
      for i := 0 to 8
        invariant forall k :: 0 <= k < i ==>
                    results[k].X == (x + MooreOffsets[k].0) % Width &&
                    results[k].Y == (y + MooreOffsets[k].1) % Height &&
                    IsCell(results[k])
      {
        var position := positions[i];
        PositionWraps(x, y, MooreOffsets[i].0, MooreOffsets[i].1);
        results[i] := Neighbour(GetTileIndex(position.index), position.x, position.y);
      }
      r := results[..];
    }
  }

  lemma MulMonotone(a: int, b: int, c: int)
    requires 0 <= a <= b && 0 <= c
    ensures 0 <= a * c <= b * c
  {
  }

  lemma DivModParts(i: int, n: int)
    requires 0 <= i && n >= 1
    ensures i == i % n + (i / n) * n && 0 <= i % n < n && 0 <= i / n
  {
  }

  /** Row-major decoding: `x + y * n` splits back into column `x` and row `y`. */
  lemma IndexDecodes(x: int, y: int, n: int)
    requires n >= 1 && 0 <= x < n
    ensures (x + y * n) % n == x && (x + y * n) / n == y
  {
    var i := x + y * n;
    var q, r := i / n, i % n;
    assert q * n + r == i && 0 <= r < n;
    var d := q - y;
    assert d * n == q * n - y * n;
    assert d * n == x - r;
    if d >= 1 {
      MulMonotone(1, d, n);
      assert false;
    } else if d <= -1 {
      MulMonotone(1, -d, n);
      assert false;
    }
  }

  /** The roll threshold: a roll of at least 45 out of `[0, 100)` makes ground, anything lower a wall. */
  const GroundThreshold := 45

  /**
   * A `maxX × maxY` map whose cell `i` comes from roll `i`. The rolls are what
   * `math/rand.Intn(100)` yields after seeding, so equal rolls give equal maps.
   */
  method GenerateMap(rolls: seq<int>, maxX: Int64, maxY: Int64) returns (m: Map)
    requires Mul64(maxX, maxY) >= 0
    requires |rolls| >= Mul64(maxX, maxY)
    ensures m.Width == maxX && m.Height == maxY
    ensures |m.tiles| == Mul64(maxX, maxY)
    ensures forall i :: 0 <= i < |m.tiles| ==> m.tiles[i] == (if rolls[i] >= GroundThreshold then 0 else 1)
    ensures forall i :: 0 <= i < |m.tiles| ==>
              m.GetTileIndex(i) == (if rolls[i] >= GroundThreshold then GroundTile else WallTile)
    ensures 0 <= maxX * maxY <= MaxInt64 ==> |m.tiles| == maxX * maxY && m.Valid()
  {
    var maxIndex := Mul64(maxX, maxY);
    var tiles := new TileCode[maxIndex];
    for i := 0 to maxIndex
      invariant forall k :: 0 <= k < i ==> tiles[k] == (if rolls[k] >= GroundThreshold then 0 else 1)
    {
      var tile := WallTile;
      var roll := rolls[i];
      if roll >= GroundThreshold {
        tile := GroundTile;
      }
      tiles[i] := TileToCode(tile.repr);
    }
    m := Map(maxX, maxY, tiles[..]);
  }
}
