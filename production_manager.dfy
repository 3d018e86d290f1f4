/**
 * The per-round production engine: for each player and each resource it
 * computes usage, requirement (next round's usage), spoilage and production.
 * It only reads the map and the players.
 */
module ProductionManager {
  import opened Common
  import opened Enums
  import opened Gameplay

  /** The four quantities computed for one player and one resource in one round. */
  datatype ProductionResult = ProductionResult(usage: int, spoilage: int, production: int, requirement: int)

  // ---------------------------------------------------------------- usage

  /** Food upkeep: 3 units, one more every 4 rounds. */
  function FoodUsage(round: int): (u: int)
    ensures round >= 0 ==> 4 * (u - 3) <= round < 4 * (u - 3) + 4
  {
    JavaDiv(round, 4) + 3
  }

  /** Tiles recorded for `p` that hold a MULE other than an energy MULE. */
  ghost function NonEnergyMuleTiles(wm: WorldMap, p: Player): set<Tile>
    requires p in wm.ownedTiles
    reads wm, wm.ownedTiles[p]
  {
    set t | t in wm.ownedTiles[p] && t.mule.Some? && t.mule.value != EnergyMule
  }

  /** The three MULE counts that make up energy usage partition the non-energy MULE tiles. */
  lemma EnergyUsageCountsNonEnergyMules(wm: WorldMap, p: Player)
    requires p in wm.ownedTiles
    ensures wm.CountTilesWithMule(p, FoodMule) + wm.CountTilesWithMule(p, SmithoreMule)
            + wm.CountTilesWithMule(p, CrystiteMule) == |NonEnergyMuleTiles(wm, p)|
    ensures |NonEnergyMuleTiles(wm, p)| <= |wm.ownedTiles[p]|
  {
    var food := wm.TilesWithMule(p, FoodMule);
    var smithore := wm.TilesWithMule(p, SmithoreMule);
    var crystite := wm.TilesWithMule(p, CrystiteMule);
    var all := NonEnergyMuleTiles(wm, p);
    assert food * smithore == {};
    assert (food + smithore) * crystite == {};
    assert all == food + smithore + crystite;
    assert |food + smithore| == |food| + |smithore|;
    assert |all| == |food + smithore| + |crystite|;
    SubsetCardinality(all, wm.ownedTiles[p]);
  }

  /** `usageOf`: how much of `resource` the player uses up in `round`. */
  function UsageOf(resource: ResourceType, player: Player, wm: WorldMap, round: int): (u: int)
    requires player in wm.ownedTiles
    reads wm, wm.ownedTiles[player]
    ensures resource == Food ==> u == FoodUsage(round)
    ensures resource == Food && round >= 0 ==> u >= 3
    ensures resource == Energy ==> u == |NonEnergyMuleTiles(wm, player)|
    ensures resource != Food ==> 0 <= u <= |wm.ownedTiles[player]|
    ensures resource == Smithore || resource == Crystite ==> u == 0
  {
    if resource == Food then
      FoodUsage(round)
    else if resource == Energy then
      EnergyUsageCountsNonEnergyMules(wm, player);
      wm.CountTilesWithMule(player, FoodMule) + wm.CountTilesWithMule(player, SmithoreMule)
        + wm.CountTilesWithMule(player, CrystiteMule)
    else
      0
  }

  /** Food usage is 3 in rounds 0–3, 4 in rounds 4–7, and k + 3 in rounds 4k to 4k + 3. */
  lemma FoodUsageSchedule(round: int, k: int)
    requires 0 <= 4 * k <= round < 4 * k + 4
    ensures FoodUsage(round) == k + 3
  {
  }

  /** Food usage never decreases from one round to a later one. */
  lemma FoodUsageMonotone(r1: int, r2: int)
    requires 0 <= r1 <= r2
    ensures 3 <= FoodUsage(r1) <= FoodUsage(r2)
  {
  }

  /** Four rounds later, food usage is exactly one higher. */
  lemma FoodUsageStep(round: int)
    requires round >= 0
    ensures FoodUsage(round + 4) == FoodUsage(round) + 1
  {
  }

  /**
   * The requirement is usage one round ahead: for food it is usage or usage + 1;
   * for the other resources the formula ignores the round, so the two agree.
   */
  lemma RequirementIsNextRoundUsage(wm: WorldMap, p: Player, resource: ResourceType, round: int)
    requires p in wm.ownedTiles && round >= 0
    ensures var usage, requirement := UsageOf(resource, p, wm, round), UsageOf(resource, p, wm, round + 1);
      (resource == Food ==> usage <= requirement <= usage + 1) &&
      (resource != Food ==> requirement == usage)
  {
  }

  // ------------------------------------------------------------- spoilage

  /** `spoilageOf`: how much of a stock of `quantity` units spoils, given next round's requirement. */
  function SpoilageOf(resource: ResourceType, quantity: int, requirement: int): (s: int)
    ensures quantity >= 0 ==> 0 <= s <= quantity
  {
    if resource == Food then
      if quantity > requirement + 1 then JavaDiv(quantity, 2) else 0
    else if resource == Energy then
      JavaDiv(quantity, 4)
    else
      Max(quantity - 50, 0)
  }

  /** Food spoils exactly when the stock exceeds requirement + 1, and then half of it (rounded down) spoils. */
  lemma FoodSpoilsOnlyAboveRequirement(quantity: int, requirement: int)
    requires quantity >= 0 && requirement >= 0
    ensures var s := SpoilageOf(Food, quantity, requirement);
      (s > 0 <==> quantity > requirement + 1) &&
      (s > 0 ==> 2 * s <= quantity <= 2 * s + 1)
  {
  }

  /** A quarter of the energy stock, rounded down, spoils. */
  lemma EnergySpoilsAQuarter(quantity: int, requirement: int)
    requires quantity >= 0
    ensures var s := SpoilageOf(Energy, quantity, requirement);
      4 * s <= quantity < 4 * s + 4
  {
  }

  /** Smithore and crystite keep at most 50 units: everything above the cap spoils. */
  lemma OreKeepsAtMostFifty(resource: ResourceType, quantity: int, requirement: int)
    requires resource == Smithore || resource == Crystite
    requires quantity >= 0
    ensures quantity - SpoilageOf(resource, quantity, requirement) == Min(quantity, 50)
  {
  }

  lemma SpoilageExamples()
    ensures SpoilageOf(Food, 10, 5) == 5
    ensures SpoilageOf(Food, 6, 5) == 0
    ensures SpoilageOf(Smithore, 60, 0) == 10
    ensures SpoilageOf(Smithore, 40, 0) == 0
  {
  }

  // ------------------------------------------------------- base production

  /**
   * The static table, built the way the source's initializer fills it: the two
   * mountain variants are copied from the first one before its smithore entry
   * is set, and each gets its own smithore entry afterwards.
   */
  function BaseProductionTable(): (table: map<TerrainType, map<ResourceType, int>>)
    ensures Plain in table && ProductionRow(table[Plain])
    ensures River in table && ProductionRow(table[River])
    ensures Mountain1 in table && ProductionRow(table[Mountain1])
    ensures Mountain2 in table && ProductionRow(table[Mountain2])
    ensures Mountain3 in table && ProductionRow(table[Mountain3])
  {
    var plain := map[Food := 2, Energy := 3, Smithore := 1, Crystite := 0];
    var river := map[Food := 4, Energy := 2, Smithore := 0, Crystite := 0];
    var mountain1 := map[Food := 1, Energy := 1, Crystite := 0];
    var mountain2 := mountain1;
    var mountain3 := mountain1;
    map[Plain := plain, River := river,
        Mountain1 := mountain1[Smithore := 2],
        Mountain2 := mountain2[Smithore := 3],
        Mountain3 := mountain3[Smithore := 4]]
  }

  /** A table row: every resource has an entry between 0 and 4, and crystite's is 0. */
  predicate ProductionRow(row: map<ResourceType, int>)
  {
    Food in row && Energy in row && Smithore in row && Crystite in row &&
    0 <= row[Food] <= 4 && 0 <= row[Energy] <= 4 && 0 <= row[Smithore] <= 4 && row[Crystite] == 0
  }

  /** Every terrain and resource has an entry: no lookup can fail. */
  lemma BaseProductionTableIsTotal(terrain: TerrainType, resource: ResourceType)
    ensures terrain in BaseProductionTable() && resource in BaseProductionTable()[terrain]
  {
  }

  /** `baseProductionOf`: the table entry for a terrain and a resource. */
  function BaseProductionOf(terrain: TerrainType, resource: ResourceType): (n: int)
    ensures 0 <= n <= 4
    ensures resource == Crystite ==> n == 0
  {
    BaseProductionTableIsTotal(terrain, resource);
    BaseProductionTable()[terrain][resource]
  }

  /** The table row by row. */
  lemma BaseProductionValues()
    ensures BaseProductionOf(Plain, Food) == 2 && BaseProductionOf(Plain, Energy) == 3
    ensures BaseProductionOf(Plain, Smithore) == 1 && BaseProductionOf(Plain, Crystite) == 0
    ensures BaseProductionOf(River, Food) == 4 && BaseProductionOf(River, Energy) == 2
    ensures BaseProductionOf(River, Smithore) == 0 && BaseProductionOf(River, Crystite) == 0
    ensures BaseProductionOf(Mountain1, Food) == 1 && BaseProductionOf(Mountain1, Energy) == 1
    ensures BaseProductionOf(Mountain1, Smithore) == 2 && BaseProductionOf(Mountain1, Crystite) == 0
    ensures BaseProductionOf(Mountain2, Food) == 1 && BaseProductionOf(Mountain2, Energy) == 1
    ensures BaseProductionOf(Mountain2, Smithore) == 3 && BaseProductionOf(Mountain2, Crystite) == 0
    ensures BaseProductionOf(Mountain3, Food) == 1 && BaseProductionOf(Mountain3, Energy) == 1
    ensures BaseProductionOf(Mountain3, Smithore) == 4 && BaseProductionOf(Mountain3, Crystite) == 0
  {
  }

  // ------------------------------------------------------------ production

  /** Sum of the base production of `resource` over a set of tiles. */
  ghost function SumBase(tiles: set<Tile>, resource: ResourceType): (sum: int)
    ensures 0 <= sum
    decreases |tiles|
  {
    if tiles == {} then 0
    else
      var t :| t in tiles;
      BaseProductionOf(t.terrain, resource) + SumBase(tiles - {t}, resource)
  }

  /** The sum does not depend on which tile is taken out first. */
  lemma {:induction false} SumBaseRemove(tiles: set<Tile>, resource: ResourceType, t: Tile)
    requires t in tiles
    ensures SumBase(tiles, resource) == BaseProductionOf(t.terrain, resource) + SumBase(tiles - {t}, resource)
    decreases |tiles|
  {
    var u :| u in tiles && SumBase(tiles, resource) == BaseProductionOf(u.terrain, resource) + SumBase(tiles - {u}, resource);
    if u != t {
      SumBaseRemove(tiles - {u}, resource, t);
      SumBaseRemove(tiles - {t}, resource, u);
      assert tiles - {u} - {t} == tiles - {t} - {u};
    }
  }

  /** Each tile contributes between 0 and 4 units, and crystite tiles contribute nothing. */
  lemma {:induction false} SumBaseBounds(tiles: set<Tile>, resource: ResourceType)
    ensures 0 <= SumBase(tiles, resource) <= 4 * |tiles|
    ensures resource == Crystite ==> SumBase(tiles, resource) == 0
    decreases |tiles|
  {
    if tiles != {} {
      var t :| t in tiles;
      SumBaseRemove(tiles, resource, t);
      SumBaseBounds(tiles - {t}, resource);
    }
  }

  /** Production of `resource`: base production summed over the player's tiles that hold its MULE. */
  ghost function ProductionOf(wm: WorldMap, p: Player, resource: ResourceType): (production: int)
    requires p in wm.ownedTiles
    reads wm, wm.ownedTiles[p]
    ensures 0 <= production <= 4 * wm.CountTilesWithMule(p, ProducedBy(resource))
  {
    SumBaseBounds(wm.TilesWithMule(p, ProducedBy(resource)), resource);
    SumBase(wm.TilesWithMule(p, ProducedBy(resource)), resource)
  }

  /**
   * Production is at most 4 per producing tile, is 0 for a player with no
   * tiles, and is always 0 for crystite.
   */
  lemma ProductionBounds(wm: WorldMap, p: Player, resource: ResourceType)
    requires p in wm.ownedTiles
    ensures 0 <= ProductionOf(wm, p, resource) <= 4 * wm.CountTilesWithMule(p, ProducedBy(resource))
    ensures wm.ownedTiles[p] == {} ==> ProductionOf(wm, p, resource) == 0
    ensures resource == Crystite ==> ProductionOf(wm, p, resource) == 0
  {
    SumBaseBounds(wm.TilesWithMule(p, ProducedBy(resource)), resource);
  }

  /** The production loop: adds up base production over a set of tiles. */
  method SumProduction(tiles: set<Tile>, resource: ResourceType) returns (production: int)
    ensures production == SumBase(tiles, resource)
  {
    production := 0;
    var remaining := tiles;
    while remaining != {}
      invariant remaining <= tiles
      invariant production + SumBase(remaining, resource) == SumBase(tiles, resource)
      decreases |remaining|
    {
      var t :| t in remaining;
      SumBaseRemove(remaining, resource, t);
      production := production + BaseProductionOf(t.terrain, resource);
      remaining := remaining - {t};
    }
  }

  // ----------------------------------------------------------- the table

  /** The record `calculateProduction` computes for one player and one resource. */
  ghost function ResultFor(wm: WorldMap, p: Player, resource: ResourceType, round: int): (result: ProductionResult)
    requires p in wm.ownedTiles
    reads wm, wm.ownedTiles[p], p
    ensures 0 <= result.spoilage <= p.StockOf(resource)
    ensures resource != Food ==> result.requirement == result.usage
  {
    var requirement := UsageOf(resource, p, wm, round + 1);
    ProductionResult(
      UsageOf(resource, p, wm, round),
      SpoilageOf(resource, p.StockOf(resource), requirement),
      ProductionOf(wm, p, resource),
      requirement)
  }

  /** A player's entry: one record for every resource, each as `ResultFor` gives it. */
  ghost predicate EntryFor(wm: WorldMap, p: Player, round: int, entry: map<ResourceType, ProductionResult>)
    requires p in wm.ownedTiles
    reads wm, wm.ownedTiles[p], p
  {
    forall r: ResourceType :: r in entry && entry[r] == ResultFor(wm, p, r, round)
  }

  /**
   * What each record guarantees: the spoilage is part of the stock, the
   * production is bounded by the producing tiles, and usage and requirement
   * are non-negative.
   */
  lemma ResultForBounds(wm: WorldMap, p: Player, resource: ResourceType, round: int)
    requires p in wm.ownedTiles && round >= 0
    ensures var result := ResultFor(wm, p, resource, round);
      0 <= result.spoilage <= p.StockOf(resource) &&
      0 <= result.production <= 4 * wm.CountTilesWithMule(p, ProducedBy(resource)) &&
      0 <= result.usage <= result.requirement
  {
    ProductionBounds(wm, p, resource);
    RequirementIsNextRoundUsage(wm, p, resource, round);
  }

  /** The inner loop of `calculateProduction`: one player's record for every resource. */
  method PlayerProduction(wm: WorldMap, player: Player, round: int)
    returns (entry: map<ResourceType, ProductionResult>)
    requires player in wm.ownedTiles
    ensures EntryFor(wm, player, round, entry)
  {
    entry := map[];
    for j := 0 to |AllResources|
      invariant entry.Keys == set r | r in AllResources[..j]
      invariant forall r :: r in entry ==> entry[r] == ResultFor(wm, player, r, round)
    {
      var resource := AllResources[j];
      var usage := UsageOf(resource, player, wm, round);
      var requirement := UsageOf(resource, player, wm, round + 1);
      var spoilage := SpoilageOf(resource, player.StockOf(resource), requirement);
      var production := SumProduction(wm.TilesWithMule(player, ProducedBy(resource)), resource);
      var record := ProductionResult(usage, spoilage, production, requirement);
      assert record == ResultFor(wm, player, resource, round);
      entry := entry[resource := record];
    }
    forall r: ResourceType
      ensures r in entry
    {
      AllResourcesListsEveryResource(r);
      assert AllResources[..|AllResources|] == AllResources;
    }
  }

  /**
   * `calculateProduction`: a negative round is an illegal argument; otherwise
   * one entry per listed player, each with a record for every resource.
   * Nothing is modified.
   */
  method CalculateProduction(wm: WorldMap, players: seq<Player>, round: int)
    returns (result: Result<map<Player, map<ResourceType, ProductionResult>>>)
    requires round >= 0 ==> forall p :: p in players ==> p in wm.ownedTiles
    ensures result.IllegalArgument? <==> round < 0
    ensures result.Ok? ==> result.value.Keys == set p | p in players
    ensures result.Ok? ==> forall p :: p in result.value ==> EntryFor(wm, p, round, result.value[p])
  {
    if round < 0 {
      return IllegalArgument;
    }
    var table: map<Player, map<ResourceType, ProductionResult>> := map[];
    for i := 0 to |players|
      invariant table.Keys == set p | p in players[..i]
      invariant forall p :: p in table ==> EntryFor(wm, p, round, table[p])
    {
      var player := players[i];
      var entry := PlayerProduction(wm, player, round);
      table := table[player := entry];
    }
    assert players[..|players|] == players;
    return Ok(table);
  }

  // ----------------------------------------------------------------- bound

  /**
   * `bound` as written: an illegal argument when min > max, otherwise
   * `min(min, max(quantity, max))`, which is always `min`.
   */
  function Bound(quantity: int, min: int, max: int): (r: Result<int>)
    ensures r.IllegalArgument? <==> min > max
    ensures r.Ok? ==> r.value == min
  {
    if min > max then IllegalArgument else Ok(Min(min, Max(quantity, max)))
  }

  /** The clamp `bound`'s documentation describes. */
  function Clamp(quantity: int, min: int, max: int): (r: Result<int>)
    ensures r.IllegalArgument? <==> min > max
    ensures r.Ok? ==> min <= r.value <= max
    ensures r.Ok? && min <= quantity <= max ==> r.value == quantity
    ensures r.Ok? && quantity < min ==> r.value == min
    ensures r.Ok? && quantity > max ==> r.value == max
  {
    if min > max then IllegalArgument else Ok(Max(min, Min(quantity, max)))
  }

  /** A quantity inside its bounds is not returned by `bound`. */
  lemma BoundIsNotAClamp()
    ensures Bound(5, 0, 10) == Ok(0)
    ensures Clamp(5, 0, 10) == Ok(5)
  {
  }
}
