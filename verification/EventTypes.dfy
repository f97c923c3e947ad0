/** Event envelopes and ordering keys (kernel-data/src/event/types.rs). */
module EventTypes {
  import opened Prelude

  const U64_MAX: int := 0xFFFF_FFFF_FFFF_FFFF
  const I64_MAX: int := 0x7FFF_FFFF_FFFF_FFFF

  type U64 = x: int | 0 <= x <= U64_MAX

  /** How an event is ordered; the sequence number is absent until one is assigned. */
  datatype OrderMode =
    | Entity(entityId: string, sequence: Option<U64>)
    | Causality(key: string, sequence: Option<U64>)

  datatype OrderingKey = EntityKey(entityId: string) | CausalityKey(key: string)

  datatype ScopedKey = ScopedKey(tenantId: string, ordering: OrderingKey)

  datatype Envelope = Envelope(eventId: string, tenantId: string, mode: OrderMode,
                               eventType: string, payload: string)
  {
    function Seq(): Option<U64> { mode.sequence }

    function Key(): ScopedKey { ScopedKey(tenantId, KeyOfMode(mode)) }
  }

  datatype Delivery = Delivery(deliveryId: string, streamKey: string, event: Envelope)

  function KeyOfMode(mode: OrderMode): OrderingKey {
    match mode
    case Entity(id, _) => EntityKey(id)
    case Causality(key, _) => CausalityKey(key)
  }

  /** Two modes share an ordering key exactly when they are of one kind and name the same thing. */
  lemma SameKeyExactly(a: OrderMode, b: OrderMode)
    ensures KeyOfMode(a) == KeyOfMode(b) <==>
            (a.Entity? && b.Entity? && a.entityId == b.entityId) || (a.Causality? && b.Causality? && a.key == b.key)
  {
  }
}
