# YASP game core in Dafny

A Dafny model of the game logic of YASP, a small roguelike prototype written in Go:

- **Dungeon maps** (`dungeon/dungeon.go`): a `Width × Height` grid of tile codes stored flat,
  cell `(x, y)` at index `x + y * Width`; the fixed code/glyph tables (`0 . ground`, `1 # wall`,
  `2 ~ moss`, `3 = stump`); `GetNeighbours`, which drops neighbours outside the map;
  `GetSurroundingTiles`, which wraps them around the edges; and `GenerateMap`, which makes each
  cell ground or wall from a roll in `[0, 100)`.
- **The player** in its two revisions: `game/game.go` (module `Game`), whose `Move` and `MoveTo`
  return the previous position, and `game/player.go` (module `GamePlayer`), whose `Move` and
  `MoveTo` return the new one. Both clamp into `[0, maxX) × [0, maxY)` by the same rule
  (module `Clamping`).
- **The game state** (`game/game.go`): the map (fixed at construction) and the player, the read
  accessors `GetPlayerPos`, `GetMapDimensions` and `GetMapTile` (the player glyph drawn over the
  terrain), and the event loop as a step function per event (`HandleEvent`) and a fold over the
  delivered events (`ProcessEvents`, specified by the function `Run`). Events are the two
  kinds of `game/events`: `Movement{OffX, OffY}` and `KeyPress{Key}`.
- **The quest log** (`game/questlog.go`): an append-only class over a `seq<QuestLogItem>` with
  `Len`, `AddItem`, a bounds-checked `GetItem` and `RecordPlayerMovement`, whose message
  `You move from (%3d,%3d) to (%3d,%3d)` is modelled character for character (module `Fmt`);
  a parser for it proves that the message carries the four coordinates recoverably.
- **Configuration** (`config.go`): `Config.Valid` (width checked before height) and
  `LoadConfig` (parse, then validate).

Go's `int` is taken as 64 bits wide, as on the 64-bit platforms the game targets (on a 32-bit
platform it is 32 bits): module `GoInt` defines `Int64` and Go's wrapping `+`, `-`, `*`,
used where the source computes on unrestricted inputs (`Move`, `Clamp`'s `maxX - 1`,
`GenerateMap`'s `maxX * maxY`).

Inputs the model takes as parameters: the random rolls (`rolls`, what `math/rand.Intn(100)`
yields after seeding), the clock (`now`), the YAML decoder (`unmarshal`), and the map of a new
game (the source uses a fixed map that is not part of this model).

`State` in `game/game.go` has no quest log, and `RunForever` only moves and clamps the player
(game/game.go:70-78, 128-133), so `HandleEvent` records nothing in a quest log; the quest log is
modelled on its own.

## Model

| member | source | states |
|---|---|---|
| `GoInt.Wrap64` | game/game.go:43-44 | the stored value is congruent to the exact one modulo 2^64 and equals it when it fits |
| `GoInt.Add64` | game/game.go:43-44 | Go's `+`: exact without overflow, off by 2^64 on overflow |
| `GoInt.Sub64` | game/game.go:57-62 | Go's `-` (as in `maxX-1`): exact without overflow, off by 2^64 on overflow |
| `GoInt.Mul64` | dungeon/dungeon.go:185 | Go's `*` (as in `maxX * maxY`): exact when the product fits, congruent modulo 2^64 always |
| `Dungeon.CodeToTile` | dungeon/dungeon.go:87-90 | `codeToTile[c]`: defined on exactly the codes 0..3, each mapped to a glyph that `tileToCode` sends back to `c`; any other code gives Go's zero `Tile` |
| `Dungeon.TileToCode` | dungeon/dungeon.go:200 | `tileToCode[r]`: defined on exactly `. # ~ =`; the result is always a code 0..3, whose tile is `r` itself, or ground for Go's zero default |
| `Dungeon.TablesInverse` | dungeon/dungeon.go:41-52 | `codeToTile` has keys exactly 0..3, `tileToCode` exactly `. # ~ =`; each maps back onto the other; the player glyph has no code |
| `Dungeon.Map.Dimensions` | dungeon/dungeon.go:62-64 | on a valid map width times height is the number of stored tiles |
| `Dungeon.Map.GetTile` | dungeon/dungeon.go:82-85 | defined wherever the flat index is inside the slice; on a valid map it yields a table tile whose code is the stored one |
| `Dungeon.Map.GetTileIndex` | dungeon/dungeon.go:87-90 | the tile of stored code `i`; on a valid map a table tile that encodes back to `tiles[i]` |
| `Dungeon.Map.Index` | dungeon/dungeon.go:83 | the flat index `x + y*Width` of a cell whose column is in `[0, Width)` splits back into that column (`i mod Width`) and row (`i div Width`) |
| `Dungeon.IndexDecodes` | dungeon/dungeon.go:83 | row-major decoding: `(x + y*n) mod n == x` and `(x + y*n) div n == y` for `0 ≤ x < n` |
| `Dungeon.Map.GridIndex` | dungeon/dungeon.go:82-85 | every in-bounds `(x, y)` has its index `x + y*Width` in `[0, Width*Height)` |
| `Dungeon.Map.CellOfIndex` | dungeon/dungeon.go:55-60 | every slice index `i` is the index of the in-bounds cell `(i mod Width, i div Width)` |
| `Dungeon.Map.IndexInjective` | dungeon/dungeon.go:82-85 | distinct in-bounds cells have distinct indices |
| `Dungeon.Map.ToIndex` | dungeon/dungeon.go:105-110 | fails exactly for cells outside `[0,Width)×[0,Height)`, else yields the cell's index |
| `Dungeon.Map.AddIfNotErr` | dungeon/dungeon.go:112-122 | appends the cell with its tile when in bounds and nothing otherwise |
| `Dungeon.Map.GetNeighbours` | dungeon/dungeon.go:102-133 | returns exactly the reference list: the in-bounds cells of the eight Moore offsets, clockwise from `(x-1, y-1)` |
| `Dungeon.Map.NeighboursSound` | dungeon/dungeon.go:102-133 | at most 8 entries; each is an in-bounds ring cell whose tile is `GetTile(X, Y)` |
| `Dungeon.Map.NeighboursComplete` | dungeon/dungeon.go:112-131 | every in-bounds ring cell appears among the entries |
| `Dungeon.Map.NeighboursInterior` | dungeon/dungeon.go:124-131 | an interior cell gets exactly 8 entries, in ring order |
| `Dungeon.Map.RingWrapHarmless` | dungeon/dungeon.go:124-131 | Go's wrapping `x-1`, `x+1` select the same in-bounds cells as exact arithmetic |
| `Dungeon.Map.ClipSound` | dungeon/dungeon.go:112-122 | filtering candidates keeps at most one entry each, only in-bounds candidates with their tiles |
| `Dungeon.Map.ClipComplete` | dungeon/dungeon.go:112-122 | filtering candidates keeps every in-bounds candidate |
| `Dungeon.Map.ClipAll` | dungeon/dungeon.go:112-122 | when every candidate is in bounds, all are kept, in order |
| `Dungeon.WrapCoord` | dungeon/dungeon.go:138-152 | one step outside `[0, n)` on either side wraps to `c mod n`, inside `[0, n)` |
| `Dungeon.WrapCoordAsWritten` | dungeon/dungeon.go:138-150 | `toIndex`'s wrap as the source writes it: a negative `c` becomes `n + c`, `c` in `[0, n)` is kept, `c ≥ n` becomes `n - c` |
| `Dungeon.WrapAgreesInRange` | dungeon/dungeon.go:138-152 | for coordinates up to `n` the source's wrap and the corrected one agree |
| `Dungeon.WrapAsWrittenOvershoots` | dungeon/dungeon.go:142-144 | the source's wrap sends `5` on a width of 3 to `-2`, not `2`, at an index that does not panic |
| `Dungeon.Map.MakePosition` | dungeon/dungeon.go:158-161 | the corrected `makePosition` (built on `WrapCoord`, not the source's wrap): the position's index is that of its own wrapped coordinates; a coordinate at most one map length outside the range is wrapped to its remainder |
| `Dungeon.Map.PositionWraps` | dungeon/dungeon.go:158-172 | a one-step neighbour of an in-bounds cell gets coordinates `(x+dx) mod Width`, `(y+dy) mod Height` and an index inside the slice |
| `Dungeon.Map.GetSurroundingTiles` | dungeon/dungeon.go:135-182 | 8 entries; entry `k` is at `((x+dx_k) mod Width, (y+dy_k) mod Height)`, in bounds, with that cell's tile |
| `Dungeon.GenerateMap` | dungeon/dungeon.go:184-204 | width `maxX`, height `maxY`, `maxX*maxY` codes (Go product); cell `i` is ground (0) iff roll `i` ≥ 45, else wall (1); valid when the product fits |
| `Clamping.ClampCoord` | game/game.go:50-63 | one axis of `Clamp`: the result is the coordinate itself, `0` or `hi - 1` (Go's subtraction); a negative coordinate goes to 0 when the range is non-empty; one at or beyond `hi` goes to `hi - 1` |
| `Clamping.ClampInRange` | game/game.go:48-64 | for `hi ≥ 1` the clamped coordinate lies in `[0, hi)` |
| `Clamping.ClampKeepsInRange` | game/game.go:50-63 | a coordinate already in `[0, hi)` is unchanged |
| `Clamping.ClampIdempotent` | game/player.go:40-56 | clamping twice equals clamping once, for every bound including empty and wrapping ones |
| `Clamping.ClampNearest` | game/game.go:48-64 | the clamped coordinate is the point of `[0, hi)` nearest the original |
| `Clamping.ClampEmptyRange` | game/game.go:57-62 | with `MinInt64 < hi ≤ 0` the result is `hi - 1`, which lies outside the empty range |
| `Game.Player.constructor` | game/game.go:85-88 | the literal `Player{x, y}` holds exactly the given coordinates |
| `Game.Player.Pos` | game/game.go:17-27 | `Pos()` is the pair `(X(), Y())`; all three only read |
| `Game.Player.MoveTo` | game/game.go:29-39 | the position becomes `(x, y)`; the previous position is returned |
| `Game.Player.Move` | game/game.go:41-46 | the position becomes old + offsets (Go's wrapping addition); the previous position is returned |
| `Game.Player.Clamp` | game/game.go:48-64 | the position becomes the clamped one and is returned; for positive bounds it is in range; an in-range player does not move |
| `Game.State.NewGame` | game/game.go:80-90 | given a well-formed map, the state holds that map (still well-formed, as `GetMapTile` needs) and a fresh player at `(1, 1)` |
| `Game.State.GetPlayerPos` | game/game.go:92-97 | the player's current coordinates, read only |
| `Game.State.GetMapDimensions` | game/game.go:99-104 | the map's width and height, read only |
| `Game.State.GetMapTile` | game/game.go:106-123 | fails (with the query and bounds) iff outside the map; on the player's square yields `PlayerTile` whatever the terrain; elsewhere the map's tile at `(x, y)` |
| `Game.State.HandleEvent` | game/game.go:128-136 | a movement sets the player to `Clamp(pos + offset, Width, Height)` (inside a non-empty map); a key press changes nothing; the map is a constant |
| `Game.State.ProcessEvents` | game/game.go:125-139 | after the events the player stands where `Run` folds them to, one event at a time in order; a player inside the map stays inside |
| `Game.Step` | game/game.go:128-136 | one event: on a non-empty map every movement ends inside it; a key press keeps the position |
| `Game.Run` | game/game.go:125-139 | the fold of `Step` over the events: a player inside the map stays inside whatever events arrive, and after any movement on a non-empty map the player is inside wherever it started |
| `Game.RunAppend` | game/game.go:127 | handling `a` then `b` equals handling `a + b` (events are processed in delivery order) |
| `Game.KeyPressesKeepPosition` | game/game.go:134-135 | key presses alone never move the player |
| `Game.CornerScenario` | game/game.go:129-133 | from `(1, 1)` on a 5×5 map, `Movement(-1,-1)` reaches `(0, 0)` and a second one stays there |
| `GamePlayer.Player.constructor` | game/player.go:5-8 | the literal `Player{x, y}` holds exactly the given coordinates |
| `GamePlayer.Player.Pos` | game/player.go:10-20 | `Pos()` is the pair `(X(), Y())`; all three only read |
| `GamePlayer.Player.MoveTo` | game/player.go:22-31 | the position becomes `(x, y)`, which is returned |
| `GamePlayer.Player.Move` | game/player.go:33-38 | the position becomes old + offsets (Go's wrapping addition), which is returned |
| `GamePlayer.Player.Clamp` | game/player.go:40-56 | the position becomes the clamped one and is returned; for positive bounds it is in range; an in-range player does not move |
| `GamePlayer.ClampTwice` | game/player.go:42-55 | for any bounds, a second `Clamp` returns the same position as the first |
| `Quests.QuestLog.constructor` | game/questlog.go:9-13 | a new log is empty |
| `Quests.QuestLog.Len` | game/questlog.go:15-19 | the number of items appended so far |
| `Quests.QuestLog.GetItem` | game/questlog.go:27-38 | fails (with index and length) iff `i < 0` or `i ≥ Len()`, otherwise yields the `i`-th appended item; only reads |
| `Quests.QuestLog.AddItem` | game/questlog.go:21-25 | the items become old items + `[item]`: `Len()` grows by one, the new item sits at index old `Len()`, earlier items are unchanged |
| `Quests.QuestLog.RecordPlayerMovement` | game/questlog.go:40-49 | appends exactly one item, icon `*`, stamped `now`, whose message parses back to `(oldX, oldY, x, y)` |
| `Fmt.Decimal` | game/questlog.go:44-46 | `%d` of a non-negative number is a non-empty string of digits without a leading zero |
| `Fmt.FormatInt` | game/questlog.go:44-46 | `%d` output is a sign and digits |
| `Fmt.PadLeft` | game/questlog.go:44-46 | `%3d` padding: the result is exactly `max(|s|, width)` long, ends with `s` and is spaces before it |
| `Fmt.FormatInt3` | game/questlog.go:45 | `%3d`: the `%d` text, right-aligned in a field of 3 with spaces, never truncated |
| `Fmt.DecimalValue` | game/questlog.go:44-46 | the digits of `n` read back as `n` |
| `Fmt.FormatIntParses` | game/questlog.go:44-46 | `%d` of any integer reads back as that integer |
| `Fmt.FormatInt3Parses` | game/questlog.go:44-46 | `%3d` of any integer reads back as that integer and contains no `,` or `)` |
| `Fmt.MovementMessage` | game/questlog.go:44-46 | the `Sprintf` text: at least 36 characters, starting `You move from (` and ending `)` |
| `Fmt.MovementMessageRoundTrip` | game/questlog.go:44-46 | the movement message parses back to exactly the four coordinates it was built from |
| `Yasp.Config.Valid` | config.go:23-32 | `errBadWidth` iff width ≤ 0; `errBadHeight` iff width > 0 and height ≤ 0; nil iff both positive |
| `Yasp.ConfigError.Error` | config.go:11-12 | the texts of `errBadWidth` (`invalid WinWidth`) and `errBadHeight` (`invalid WinHeight`); a decoder error keeps its own text |
| `Yasp.LoadConfig` | config.go:44-55 | succeeds iff decoding succeeds and the value validates, and then returns the decoded value; otherwise the decoder's error or the validation error |
| `Yasp.WidthCheckedFirst` | config.go:25-30 | both fields non-positive gives `invalid WinWidth` |
| `Yasp.ValidCases` | config_test.go:11-50 | `{-1, 1}` gives errBadWidth, `{1, -1}` errBadHeight, `{1, 1}` nil |
| `Yasp.EmptyInputRejected` | config_test.go:64-68 | empty input, decoded to the zero Config, fails with `invalid WinWidth` |
| `Yasp.ValidInputRoundTrips` | config_test.go:69-76 | input decoding to `{10, 20}` is returned as `{10, 20}` |

## Findings

| source | as written | input that shows it | evidently intended | confidence | as-written member | corrected member |
|---|---|---|---|---|---|---|
| dungeon/dungeon.go:142-144 | a coordinate `x >= Width` is wrapped to `Width - x` (and `y` likewise) | centre `(4, 2)` on a 3-wide, 4-high map: neighbour `(5, 1)` becomes `x = -2`, index `1`, so no panic and the entry reports `X = -2` | `x - Width`, the mirror of the `Width + x` used below zero | medium; not executed | `Dungeon.WrapAsWrittenOvershoots` | `Dungeon.WrapCoord` |

The two wraps agree for every coordinate up to `Width` (`Dungeon.WrapAgreesInRange`), so for an
in-bounds centre, the only case the model admits, the corrected `GetSurroundingTiles` computes
what the source computes.

## Left out

- Locking: the `sync.RWMutex` of `State` and `QuestLog`, including the nested read locks in `GetMapTile`, is not modelled; every operation is taken as atomic and run one at a time.
- The goroutine and channel of `RunForever`: the consumer loop is modelled over the finite sequence of events delivered so far (`ProcessEvents`); blocking, channel capacity and the missing shutdown are not modelled.
- `Game.State.HandleEvent`: the key-press branch prints the key to standard output; output is not modelled, so the branch does nothing.
- Event types other than `Movement` and `KeyPress`: the source's `Event` is an empty interface whose other dynamic types the switch ignores; the model's `Event` is a closed two-variant datatype, so such values cannot be expressed.
- `State.Debug` and `State.EventChannel` fields, and `NewGame`'s fixed map `dungeon.One`, which is not part of this model: the map is a constructor parameter.
- `Map.String`, `Player.String`, `Neighbour.String`, `Tile.String` and `QuestLogItem.String`: text rendering for display (`QuestLogItem.String`'s time format needs the clock).
- `time.Now()` and `time.Time`: the timestamp is an opaque parameter `now`.
- `math/rand` seeding: `GenerateMap` takes the rolls directly instead of the seed; a seed's determinism is that equal rolls give equal maps, which the postcondition of `Dungeon.GenerateMap` fixes.
- `LoadConfigFile` (file read) and YAML decoding: the decoder is the parameter `unmarshal`; the model does not know what YAML text decodes to.
- `Dungeon.Map.GetTile`: the index `x + y * Width` is computed exactly; the 64-bit wrap-around of that sum for coordinates far outside the map is not modelled.
- `Dungeon.Map.GetSurroundingTiles`: only in-bounds centres are modelled; for other centres the source either panics on a negative index or returns unwrapped coordinates (see Findings).
- `Quests.QuestLog.GetItem`: the error keeps the index and length instead of the formatted message text.
- `Dungeon.Map.MakePosition`: models the corrected wrap; for `Width < x < 2 * Width` (likewise `y`) the source's `makePosition` gives `Width - x` where the model gives `x - Width` (see Findings); the two agree for every `x ≤ Width`, which covers every call `GetSurroundingTiles` makes from an in-bounds centre.
- `Game.State.NewGame`: requires a well-formed map; the source's fixed map is not part of this model, so its well-formedness is assumed of the parameter.
- `Dungeon.GenerateMap`: a negative product `maxX * maxY` (for example `maxX = -1`, `maxY = 5`) makes Go's `make` panic at dungeon/dungeon.go:191; the model requires the product to be non-negative and does not model the panic.
- Runes: Go's `rune` (the `Key` of a `KeyPress`, the glyph of a `Tile`) is an `int32`, modelled as a Dafny `char`; negative and surrogate rune values cannot be expressed. Key values are never inspected and the glyphs are ASCII constants, so nothing else depends on it.
- `Game.State.GetMapTile`: the error keeps the query and the bounds instead of the formatted message text.
