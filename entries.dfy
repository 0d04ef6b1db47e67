/** The entries of the entity registry: which host component an entity
    of a node belongs to. */
module Entries {
  import opened Homee

  /** HomeeEntityEntry(component, node). */
  datatype EntityEntry = EntityEntry(component: string, node: Node)

  /** HomeeEntityEntry.light(node): an entry of the light component. */
  function LightEntry(node: Node): (e: EntityEntry)
    ensures e.component == "light" && e.node == node
  {
    EntityEntry("light", node)
  }
}
