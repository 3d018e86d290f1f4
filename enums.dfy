/** The closed enumerations used as lookup keys by the map and the production engine. */
module Enums {

  datatype TerrainType = Plain | River | Mountain1 | Mountain2 | Mountain3

  datatype ResourceType = Food | Energy | Smithore | Crystite

  datatype MuleType = FoodMule | EnergyMule | SmithoreMule | CrystiteMule

  /** The installation that produces a resource (`ResourceType.producedBy`). */
  function ProducedBy(r: ResourceType): MuleType
  {
    match r
    case Food => FoodMule
    case Energy => EnergyMule
    case Smithore => SmithoreMule
    case Crystite => CrystiteMule
  }

  /** `ResourceType.values()`, in declaration order. */
  const AllResources: seq<ResourceType> := [Food, Energy, Smithore, Crystite]

  lemma AllResourcesListsEveryResource(r: ResourceType)
    ensures r in AllResources
  {
  }
}
