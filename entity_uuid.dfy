/** Persistent entity identifiers and the registry that resolves them to live entities. */
module EntityUuid {
  import opened Wrappers
  import opened Geometry

  /** A 128-bit universally unique identifier. */
  newtype Uuid = x: int | 0 <= x < 0x1_0000_0000_0000_0000_0000_0000_0000_0000

  /** `YoleckEntityUuid`: the identifier attached to one entity. */
  datatype YoleckEntityUuid = YoleckEntityUuid(uuid: Uuid) {
    /** `YoleckEntityUuid::get`. */
    function Get(): Uuid {
      uuid
    }
  }

  /** The identifier read back from a component is the one it was created with. */
  lemma EntityUuidRoundTrip(u: Uuid)
    ensures YoleckEntityUuid(u).Get() == u
  {
  }

  /** `YoleckUuidRegistry`: identifier to live entity. */
  datatype YoleckUuidRegistry = YoleckUuidRegistry(entities: map<Uuid, Entity>) {
    /** `YoleckUuidRegistry::get`: the entity registered under `u`, if any. */
    function Get(u: Uuid): (r: Option<Entity>)
      ensures r.Some? <==> u in entities
      ensures r.Some? ==> entities[u] == r.value
    {
      if u in entities then Some(entities[u]) else None
    }
  }
}
