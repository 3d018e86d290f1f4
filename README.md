# MULE land map and production engine, in Dafny

This project models the simulation core of the MULE land-and-economy game.
It has two parts:

- The land-ownership map, `WorldMap`. It holds a grid of tiles and a cursor, and
  records for each player the set of tiles that player has bought. It offers cursor
  selection and movement (`select`, `selectRel`, the four directions, and the two
  wrapping moves), buying the tile under the cursor, and queries.
- The per-round production engine, `ProductionManager`. For every player and every
  resource it computes four numbers: usage, requirement (next round's usage),
  spoilage and production. It uses the closed formulas `usageOf` and `spoilageOf`
  and the static base-production table.

Files, one module each:

- `common.dfy` (`Common`): `Option` and `Result`. `Result`'s error case
  `IllegalArgument` stands for the source's `IllegalArgumentException`. Also
  Java's truncating `/` and `%` (`JavaDiv`, `JavaRem`) and `Math.min`/`Math.max`.
- `enums.dfy` (`Enums`): terrain, resource and MULE kinds, `producedBy`, and
  `ResourceType.values()`.
- `navigation.dfy` (`Navigation`): each cursor operation as a pure transition.
  The result is a `Move`: the boolean the operation returns and the cursor
  afterwards. The properties of the moves are proved here.
- `gameplay.dfy` (`Gameplay`): stand-ins for `Player`, `Tile` and `Grid`, and the
  class `WorldMap`. `WorldMap` has a field holding the grid and a field
  `ownedTiles: map<Player, set<Tile>>`. Its methods change the grid's cursor, a
  tile's `owner` field and `ownedTiles` in place. Each method is proved to match
  the `Navigation` transition or to leave the state stated in its contract.
- `production_manager.dfy` (`ProductionManager`): the usage, spoilage and
  base-production functions, the production sum, and `CalculateProduction`.
  `CalculateProduction` is the nested loop that builds the result table. It is
  proved against the ghost function `ResultFor`.

Assumptions about the classes whose source is not part of this model:

- `Grid` is a `rows × cols` array of tiles with a cursor `(cursorX, cursorY)`.
  The cursor starts at (0, 0). `Grid.select` is called only with an in-bounds
  target.
- `Tile` has a fixed terrain, an optional owner and an optional MULE.
- `Player` is identified by the object itself. It has a non-negative stock per
  resource.
- `tilesWithMule(p, m)` (called at `ProductionManager.java:44`) is taken to be the
  tiles in `ownedTiles[p]` whose MULE is `m`. `countTilesWithMule` (called at
  `ProductionManager.java:65-66`) is taken to be the size of that set.

Where the code does something other than its names or doc comments say, the model follows the code:

- `selectLeftWrap` is modelled as written. From (0, 0) it fails; from every other
  cell it does what `selectRight` does, so it also fails in the last column.
- `buyTile` adds the cursor tile to the buyer's set even when another player owns
  the tile. As a result, the ownership records can disagree, and `landOwnedBy`
  then no longer counts only the tiles whose owner field names that player.
  `LandOwnedBy` states that count only under `Consistent()`.
- `bound` returns `min` whenever `min <= max`.

Each of these is listed under Findings, together with the corrected version.

## Model

| member | source | states |
|---|---|---|
| `Navigation.Select` | src/main/java/io/github/mountainrange/mule/gameplay/WorldMap.java:64-71 | `select(x, y)` succeeds iff `0 <= x < cols` and `0 <= y < rows`; on success the cursor is exactly (x, y), otherwise it is unchanged |
| `Navigation.SelectRel` | src/main/java/io/github/mountainrange/mule/gameplay/WorldMap.java:73-83 | `selectRel(dx, dy)` succeeds iff the shifted cursor is on the map; on success the cursor is the shifted one, otherwise it is unchanged |
| `Navigation.LeftWrap` | src/main/java/io/github/mountainrange/mule/gameplay/WorldMap.java:97-104 | `selectLeftWrap` as written keeps an in-bounds cursor in bounds, and whenever it succeeds it has moved one column to the right |
| `Navigation.RightWrap` | src/main/java/io/github/mountainrange/mule/gameplay/WorldMap.java:106-113 | `selectRightWrap` from an in-bounds cursor always succeeds and stays on the map |
| `Navigation.MovesStayInBounds` | src/main/java/io/github/mountainrange/mule/gameplay/WorldMap.java:64-117 | from an in-bounds cursor, `select`, `selectRel` and both wrap moves leave the cursor in bounds |
| `Navigation.RightWrapTarget` | src/main/java/io/github/mountainrange/mule/gameplay/WorldMap.java:106-113 | `selectRightWrap` always succeeds; it goes one column right, or to column 0 of the next row at the right edge, or to (0, 0) from the last cell |
| `Navigation.RightWrapIsRowMajorSuccessor` | src/main/java/io/github/mountainrange/mule/gameplay/WorldMap.java:106-113 | after `selectRightWrap`, `newY*cols + newX == (oldY*cols + oldX + 1) mod (rows*cols)` |
| `Navigation.LeftWrapStepsRight` | src/main/java/io/github/mountainrange/mule/gameplay/WorldMap.java:97-104 | `selectLeftWrap` as written: at (0, 0) it returns false and leaves the cursor alone; at every other cell it equals `selectRel(1, 0)` |
| `Navigation.LeftWrapMovesAwayFromPredecessor` | src/main/java/io/github/mountainrange/mule/gameplay/WorldMap.java:97-104 | on a 3×3 map, `selectLeftWrap` from (1, 0) moves to (2, 0) and from (2, 0) fails; the mirrored wrap moves from (1, 0) to (0, 0) |
| `Navigation.LeftWrapIntended` | src/main/java/io/github/mountainrange/mule/gameplay/WorldMap.java:97-104 | the left wrap mirrored from `selectRightWrap`: from an in-bounds cursor it succeeds and moves to the row-major predecessor, `(index - 1) mod (rows*cols)` |
| `Navigation.LeftWrapIntendedTarget` | src/main/java/io/github/mountainrange/mule/gameplay/WorldMap.java:97-104 | the mirrored left wrap goes one column left, or to the last column of the previous row at the left edge, or to the last cell from (0, 0) |
| `Navigation.WrapsAreInverse` | src/main/java/io/github/mountainrange/mule/gameplay/WorldMap.java:97-113 | the mirrored left wrap and `selectRightWrap` undo each other on every in-bounds cell |
| `Gameplay.WorldMap.constructor` | src/main/java/io/github/mountainrange/mule/gameplay/WorldMap.java:16-23 | the map holds the given grid, has one key per listed player, and every player starts with no land (`LandOwnedBy(p) == 0`); on a grid of unowned tiles the records start consistent |
| `Gameplay.WorldMap.LandOwnedBy` | src/main/java/io/github/mountainrange/mule/gameplay/WorldMap.java:27-29 | size of the player's set; when the records are consistent, it equals the number of grid tiles whose owner is that player |
| `Gameplay.WorldMap.CursorTile` | src/main/java/io/github/mountainrange/mule/gameplay/WorldMap.java:58-62 | the tile under the cursor, which is a tile of the grid |
| `Gameplay.WorldMap.GetOwner` | src/main/java/io/github/mountainrange/mule/gameplay/WorldMap.java:128-130 | owner of the cursor tile (`None` if unowned); with consistent records, the tile is in that owner's set |
| `Gameplay.WorldMap.TilesWithMule` | src/main/java/io/github/mountainrange/mule/managers/ProductionManager.java:44 | exactly the player's tiles whose MULE is `m` |
| `Gameplay.WorldMap.CountTilesWithMule` | src/main/java/io/github/mountainrange/mule/managers/ProductionManager.java:65-66 | size of `TilesWithMule`, at most the number of tiles the player holds |
| `Gameplay.WorldMap.Select` | src/main/java/io/github/mountainrange/mule/gameplay/WorldMap.java:64-71 | returns the boolean and leaves the cursor as `Navigation.Select` gives; the cursor stays in bounds; only the grid's cursor can change |
| `Gameplay.WorldMap.SelectRel` | src/main/java/io/github/mountainrange/mule/gameplay/WorldMap.java:73-83 | follows `Navigation.SelectRel`: the same bounds rule applied to cursor + (dx, dy) |
| `Gameplay.WorldMap.SelectUp` | src/main/java/io/github/mountainrange/mule/gameplay/WorldMap.java:85-87 | `selectRel(0, -1)` |
| `Gameplay.WorldMap.SelectDown` | src/main/java/io/github/mountainrange/mule/gameplay/WorldMap.java:89-91 | `selectRel(0, 1)` |
| `Gameplay.WorldMap.SelectRight` | src/main/java/io/github/mountainrange/mule/gameplay/WorldMap.java:93-95 | `selectRel(1, 0)` |
| `Gameplay.WorldMap.SelectLeft` | src/main/java/io/github/mountainrange/mule/gameplay/WorldMap.java:115-117 | `selectRel(-1, 0)` |
| `Gameplay.WorldMap.SelectLeftWrap` | src/main/java/io/github/mountainrange/mule/gameplay/WorldMap.java:97-104 | follows `Navigation.LeftWrap`, the behaviour as written |
| `Gameplay.WorldMap.SelectRightWrap` | src/main/java/io/github/mountainrange/mule/gameplay/WorldMap.java:106-113 | always returns true; moves the cursor to its row-major successor, wrapping to (0, 0) |
| `Gameplay.WorldMap.SelectLeftWrapIntended` | src/main/java/io/github/mountainrange/mule/gameplay/WorldMap.java:97-104 | corrected left wrap: always returns true; moves the cursor to its row-major predecessor |
| `Gameplay.WorldMap.BuyTile` | src/main/java/io/github/mountainrange/mule/gameplay/WorldMap.java:119-126 | an unowned cursor tile becomes the buyer's, and an owned one keeps its owner; the tile joins the buyer's set, so `LandOwnedBy` rises by 1 iff it was not already there; cursor, other tiles and other players' sets are unchanged; a second call changes nothing; consistency is kept when the tile was unowned or already the buyer's, and broken when another player owned it |
| `Gameplay.WorldMap.BuyTileIntended` | src/main/java/io/github/mountainrange/mule/gameplay/WorldMap.java:119-126 | corrected buy: only an unowned tile is taken and recorded; the cursor, the tile's MULE and every other tile's owner are unchanged; consistency is always kept |
| `ProductionManager.FoodUsage` | src/main/java/io/github/mountainrange/mule/managers/ProductionManager.java:62 | from round 0 on, food usage is 3 plus the number of complete four-round periods elapsed: `4*(u-3) <= round < 4*(u-3)+4` |
| `ProductionManager.UsageOf` | src/main/java/io/github/mountainrange/mule/managers/ProductionManager.java:59-71 | food usage is `FoodUsage(round)`, so at least 3 from round 0 on; energy usage is the number of the player's tiles holding a MULE other than an energy MULE; smithore and crystite usage is 0; non-food usage is between 0 and the player's tile count |
| `ProductionManager.EnergyUsageCountsNonEnergyMules` | src/main/java/io/github/mountainrange/mule/managers/ProductionManager.java:63-66 | the food, smithore and crystite MULE counts add up to the number of non-energy MULE tiles; energy MULEs are not counted |
| `ProductionManager.FoodUsageSchedule` | src/main/java/io/github/mountainrange/mule/managers/ProductionManager.java:60-62 | food usage is k + 3 in rounds 4k to 4k + 3 (rounds 0–3 give 3, rounds 4–7 give 4) |
| `ProductionManager.FoodUsageMonotone` | src/main/java/io/github/mountainrange/mule/managers/ProductionManager.java:60-62 | food usage is at least 3 and never decreases as the round grows |
| `ProductionManager.FoodUsageStep` | src/main/java/io/github/mountainrange/mule/managers/ProductionManager.java:60-62 | four rounds later, food usage is exactly one higher |
| `ProductionManager.RequirementIsNextRoundUsage` | src/main/java/io/github/mountainrange/mule/managers/ProductionManager.java:39-40 | for food, `usage <= requirement <= usage + 1`; for the other resources, requirement equals usage |
| `ProductionManager.SpoilageOf` | src/main/java/io/github/mountainrange/mule/managers/ProductionManager.java:79-95 | for a non-negative stock, `0 <= spoilage <= stock` |
| `ProductionManager.FoodSpoilsOnlyAboveRequirement` | src/main/java/io/github/mountainrange/mule/managers/ProductionManager.java:80-87 | food spoils iff the stock exceeds requirement + 1, and then half the stock (rounded down) spoils |
| `ProductionManager.EnergySpoilsAQuarter` | src/main/java/io/github/mountainrange/mule/managers/ProductionManager.java:88-91 | a quarter of the energy stock (rounded down) spoils |
| `ProductionManager.OreKeepsAtMostFifty` | src/main/java/io/github/mountainrange/mule/managers/ProductionManager.java:93-94 | after spoilage, min(stock, 50) units of smithore or crystite remain |
| `ProductionManager.SpoilageExamples` | src/main/java/io/github/mountainrange/mule/managers/ProductionManager.java:79-95 | food 10 with requirement 5 loses 5; food 6 with requirement 5 loses 0; smithore 60 loses 10; smithore 40 loses 0 |
| `ProductionManager.BaseProductionTable` | src/main/java/io/github/mountainrange/mule/managers/ProductionManager.java:123-156 | the static table has a row for every terrain, each with an entry between 0 and 4 for every resource and 0 for crystite |
| `ProductionManager.BaseProductionTableIsTotal` | src/main/java/io/github/mountainrange/mule/managers/ProductionManager.java:123-156 | the table built by the static initializer has an entry for every terrain and resource |
| `ProductionManager.BaseProductionOf` | src/main/java/io/github/mountainrange/mule/managers/ProductionManager.java:103-105 | the lookup never fails, is between 0 and 4, and is 0 for crystite |
| `ProductionManager.BaseProductionValues` | src/main/java/io/github/mountainrange/mule/managers/ProductionManager.java:123-156 | the full 5×4 table; MOUNTAIN2 and MOUNTAIN3 keep MOUNTAIN1's food, energy and crystite and get smithore 3 and 4 |
| `ProductionManager.SumBase` | src/main/java/io/github/mountainrange/mule/managers/ProductionManager.java:43-47 | the base production of `resource` summed over a set of tiles is never negative |
| `ProductionManager.SumBaseRemove` | src/main/java/io/github/mountainrange/mule/managers/ProductionManager.java:43-47 | the production sum does not depend on the order in which the tiles are visited |
| `ProductionManager.SumBaseBounds` | src/main/java/io/github/mountainrange/mule/managers/ProductionManager.java:43-47 | a sum over n tiles is between 0 and 4n, and is 0 for crystite |
| `ProductionManager.ProductionOf` | src/main/java/io/github/mountainrange/mule/managers/ProductionManager.java:43-47 | production is the sum over the player's tiles holding the resource's MULE, between 0 and 4 per such tile |
| `ProductionManager.ProductionBounds` | src/main/java/io/github/mountainrange/mule/managers/ProductionManager.java:43-47 | production is between 0 and 4 per producing tile; it is 0 for a player with no tiles; it is always 0 for crystite |
| `ProductionManager.SumProduction` | src/main/java/io/github/mountainrange/mule/managers/ProductionManager.java:43-47 | the accumulating loop returns the base-production sum over the producing tiles |
| `ProductionManager.ResultFor` | src/main/java/io/github/mountainrange/mule/managers/ProductionManager.java:39-50 | the record for one player and resource: spoilage is between 0 and the player's stock, and for every resource except food the requirement equals the usage |
| `ProductionManager.ResultForBounds` | src/main/java/io/github/mountainrange/mule/managers/ProductionManager.java:39-50 | in every record, spoilage is part of the stock, production is bounded by the producing tiles, and `0 <= usage <= requirement` |
| `ProductionManager.PlayerProduction` | src/main/java/io/github/mountainrange/mule/managers/ProductionManager.java:37-52 | one player's entry has a record for every resource, each holding usage, spoilage, production and requirement as defined |
| `ProductionManager.CalculateProduction` | src/main/java/io/github/mountainrange/mule/managers/ProductionManager.java:27-57 | fails with an illegal argument iff round < 0; otherwise the table has exactly one entry per listed player, each complete over all resources; nothing is modified |
| `ProductionManager.Bound` | src/main/java/io/github/mountainrange/mule/managers/ProductionManager.java:107-121 | illegal argument iff min > max; otherwise the result is always `min` |
| `ProductionManager.Clamp` | src/main/java/io/github/mountainrange/mule/managers/ProductionManager.java:107-113 | illegal argument iff min > max; otherwise the quantity clamped into [min, max] |
| `ProductionManager.BoundIsNotAClamp` | src/main/java/io/github/mountainrange/mule/managers/ProductionManager.java:107-121 | `bound(5, 0, 10)` gives 0, while the clamp gives 5 |

## Left out

- `isInside`: it is pixel geometry delegated to the grid for the view layer.
- The "Cannot select off map" console messages: only the returned boolean is modelled.
- `iterator`, `getColumns` and `getRows`: they only forward to the grid. `rows` and `cols` are fields of the `Grid` stand-in, and grid iteration order is not modelled.
- Java `HashMap`/`HashSet` hashing: players and tiles are compared by object identity, and the maps and sets are Dafny `map` and `set`.
- The unimplemented "economies of scale and learning curve" extension.
- 32-bit `int` overflow, for example of `round + 1` or of the production sum: integers are unbounded. Truncating division and remainder are modelled explicitly.
- `CalculateProduction`: for a round of 0 or more, requires every listed player to be a key of `ownedTiles`. This follows from the stand-in assumption that `tilesWithMule` reads `ownedTiles.get(player)`, which is null for an unregistered player; what the unseen method really does then is not modelled. A negative round is accepted for any players and gives the illegal-argument result.
- `PlayerProduction`: the source has this inner loop inline in `calculateProduction`. It is a separate method here only to keep the proof small.
- `BuyTile`: requires the buyer to be a key of `ownedTiles`. For any other player the source sets the owner of an unowned tile and then throws a `NullPointerException`; that path is not modelled.
- `LandOwnedBy`: requires the player to be a key of `ownedTiles`. The source throws a `NullPointerException` otherwise.
- `GetOwner`: returns `None` for an unowned tile, where the source returns null.
- Mutating a tile's MULE and a player's stock happens outside this core, so it is not modelled.

## Findings

| source | as written | input that shows it | evidently intended | confidence | as-written member | corrected member |
|---|---|---|---|---|---|---|
| src/main/java/io/github/mountainrange/mule/gameplay/WorldMap.java:97-104 | `selectLeftWrap` tests `x-1 < 0 && y-1 < 0`, then calls `select(cols-1, y-1)` (always off the map) or `selectRel(1, 0)` | cursor (1, 0) on a 3×3 map: moves to (2, 0) | mirror of `selectRightWrap`: step left, or go to the last column of the previous row, wrapping to the last cell | high, not executed | `Navigation.LeftWrapMovesAwayFromPredecessor` | `Navigation.LeftWrapIntended` |
| src/main/java/io/github/mountainrange/mule/gameplay/WorldMap.java:119-126 | the tile is added to the buyer's set even when another player owns it | tile owned by player A; B calls `buyTile`: the tile is in B's set while its owner is A | record the tile only when the buyer becomes its owner, so the two ownership records agree | medium, not executed | `Gameplay.WorldMap.BuyTile` | `Gameplay.WorldMap.BuyTileIntended` |
| src/main/java/io/github/mountainrange/mule/managers/ProductionManager.java:107-121 | `Math.min(min, Math.max(quantity, max))` always yields `min` | `bound(5, 0, 10)` returns 0 | `Math.max(min, Math.min(quantity, max))`, the clamp the documentation describes | high, not executed | `ProductionManager.BoundIsNotAClamp` | `ProductionManager.Clamp` |
