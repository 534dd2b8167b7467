/** The calls a limiter receives, whatever its backend, and the housekeeping that the
    environment may interleave with them at any moment. */
module LimiterOps {

  datatype Option<+T> = None | Some(value: T)

  datatype Op =
    | AllowN(client: string, n: int, at: int)
    | Tokens(client: string, at: int)
    | Reset(client: string, at: int)
    | SetLimit(client: string, burst: int, rps: real, at: int)
    | Cleanup(at: int)               // the in-memory limiter's eviction of idle buckets
    | Expire(key: string, at: int)   // Redis dropping a key whose time to live has passed

  datatype Answer = Verdict(ok: bool) | Count(tokens: int) | Done

  /** The call is made on behalf of the client. */
  predicate Concerns(op: Op, client: string) {
    !op.Cleanup? && !op.Expire? && op.client == client
  }

  predicate Ascending(start: int, ops: seq<Op>)
    decreases |ops|
  {
    ops != [] ==> start <= ops[0].at && Ascending(ops[0].at, ops[1..])
  }
}
