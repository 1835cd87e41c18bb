/**
 * The decoded streaming message as the ingestion pipeline sees it.
 *
 * Only the fields that the session and the persistence worker inspect are
 * represented; a field is `Some` exactly when it is present with the JSON
 * type the Rust code asks for (`as_str`, `as_u64`), and `None` when it is
 * missing or has another type.
 */
module Messages {
  import opened Wrappers

  const U64_LIMIT: int := 0x1_0000_0000_0000_0000

  /** The values `serde_json::Value::as_u64` can return. */
  type U64 = n: int | 0 <= n < U64_LIMIT

  datatype Message = Message(
    ticker: Option<string>,        // top-level "ticker", when a string
    marketTicker: Option<string>,  // "msg"."market_ticker", when a string
    kind: Option<string>,          // "type", when a string
    sequence: Option<U64>,         // "seq", when an unsigned 64-bit integer
    body: string                   // everything else in the payload, uninterpreted
  )
}
