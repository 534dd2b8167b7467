/** The middleware's reading of an answer from the client store. */
module ClientLimits {
  import opened CachedStores

  /** The limit a request resolves to. Without a store or a key, after any error but a
      missing client, and for a limit that is not positive, it is the default. */
  function Resolve(default: int, hasStore: bool, key: string, reply: Reply): int {
    if !hasStore || key == "" then default
    else if reply.Failed? || reply.InvalidKey? then default
    else if reply.Found? && reply.limit > 0 then reply.limit
    else default
  }

  /** Only a positive limit in the store's answer displaces the default. */
  lemma ResolveIsUsable(default: int, hasStore: bool, key: string, reply: Reply)
    ensures Resolve(default, hasStore, key, reply) == default || Resolve(default, hasStore, key, reply) > 0
    ensures hasStore && key != "" && reply.Found? && reply.limit > 0 ==>
      Resolve(default, hasStore, key, reply) == reply.limit
    ensures !hasStore || key == "" || !reply.Found? || reply.limit <= 0 ==>
      Resolve(default, hasStore, key, reply) == default
  {
  }
}
