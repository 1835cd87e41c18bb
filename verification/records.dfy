/**
 * The persisted log as the offline analysis tools read it back: one record
 * per JSON line, with the fields the queries touch. A field is `None` where
 * the query would see SQL NULL (the key is missing or its value is null).
 *
 * Prices are kept as whole cents: the sources carry them as floating-point
 * numbers but only compare and group by them.
 */
module Records {
  import opened Wrappers

  const DELTA_TYPE: string := "orderbook_delta"
  const SNAPSHOT_TYPE: string := "orderbook_snapshot"
  const TICKER_TYPE: string := "ticker"
  const YES: string := "yes"
  const NO: string := "no"

  /** One price level: a price and the resting quantity there (`OrderbookLevel`). */
  datatype Level = Level(price: int, quantity: int)

  datatype Record = Record(
    kind: Option<string>,          // top-level "type"
    sequence: Option<int>,         // top-level "seq"
    marketTicker: Option<string>,  // "msg"."market_ticker"
    nestedTicker: Option<string>,  // "msg"."msg"."market_ticker"
    marketId: Option<string>,      // "msg"."market_id"
    price: Option<int>,            // "msg"."price"
    delta: Option<int>,            // "msg"."delta"
    side: Option<string>,          // "msg"."side"
    volume: Option<int>,           // "msg"."volume"
    yes: Option<seq<Level>>,       // "msg"."yes": the snapshot's yes-side levels
    no: Option<seq<Level>>         // "msg"."no": the snapshot's no-side levels
  )

  predicate IsKind(r: Record, kind: string)
  {
    r.kind == Some(kind)
  }

  /** The delta and snapshot type tags differ (after `orderbook_`), so no record is both. */
  lemma KindsDiffer()
    ensures DELTA_TYPE != SNAPSHOT_TYPE
  {
    assert DELTA_TYPE[10] != SNAPSHOT_TYPE[10];
  }

  /** SQL `SUM` step: NULL contributions are skipped and a sum of no values is NULL. */
  function SqlAdd(acc: Option<int>, x: Option<int>): (r: Option<int>)
    ensures r.None? <==> acc.None? && x.None?
  {
    match (acc, x)
    case (None, _) => x
    case (Some(a), None) => acc
    case (Some(a), Some(b)) => Some(a + b)
  }
}
