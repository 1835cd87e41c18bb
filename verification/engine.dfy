/**
 * The typed views the Rust analysis engine defines over the raw log
 * (`src/analysis/engine.rs`): `ticker_data`, `deltas` and `snapshots`, each a
 * filter on the record's `type` followed by a projection, and the total-volume
 * query over `ticker_data`.
 *
 * A view is a sequence in log order; SQL leaves row order open, and every
 * contract here is about which rows appear, how many times, and in what
 * relative order the log supplies them.
 */
module Engine {
  import opened Wrappers
  import opened Records

  datatype TickerRow = TickerRow(ticker: Option<string>, volume: Option<int>)
  datatype DeltaRow = DeltaRow(ticker: Option<string>, price: Option<int>, delta: Option<int>, side: Option<string>, sequence: Option<int>)
  datatype SnapshotRow = SnapshotRow(ticker: Option<string>, marketId: Option<string>, sequence: Option<int>)

  /** `SELECT <row(r)> FROM raw_logs WHERE type = kind`, in log order. */
  function Select<T>(rs: seq<Record>, kind: string, row: Record -> T): (v: seq<T>)
    ensures |v| <= |rs|
  {
    if rs == [] then []
    else
      var r := rs[|rs| - 1];
      Select(rs[..|rs| - 1], kind, row) + (if IsKind(r, kind) then [row(r)] else [])
  }

  function TickerRowOf(r: Record): TickerRow
  {
    TickerRow(r.marketTicker, r.volume)
  }

  function DeltaRowOf(r: Record): DeltaRow
  {
    DeltaRow(r.marketTicker, r.price, r.delta, r.side, r.sequence)
  }

  function SnapshotRowOf(r: Record): SnapshotRow
  {
    SnapshotRow(r.marketTicker, r.marketId, r.sequence)
  }

  function TickerData(rs: seq<Record>): seq<TickerRow>
  {
    Select(rs, TICKER_TYPE, TickerRowOf)
  }

  function Deltas(rs: seq<Record>): seq<DeltaRow>
  {
    Select(rs, DELTA_TYPE, DeltaRowOf)
  }

  function Snapshots(rs: seq<Record>): seq<SnapshotRow>
  {
    Select(rs, SNAPSHOT_TYPE, SnapshotRowOf)
  }

  /** A view of a longer log is the view of its first part followed by the view of its second. */
  lemma {:induction false} SelectAppend<T>(a: seq<Record>, b: seq<Record>, kind: string, row: Record -> T)
    ensures Select(a + b, kind, row) == Select(a, kind, row) + Select(b, kind, row)
    decreases |b|
  {
    if b == [] {
      assert a + b == a;
    } else {
      var n := |b| - 1;
      assert (a + b)[..|a + b| - 1] == a + b[..n];
      assert (a + b)[|a + b| - 1] == b[n];
      SelectAppend(a, b[..n], kind, row);
    }
  }

  /** A view row comes from a record of the view's type, and every such record gives one. */
  lemma {:induction false} SelectMembers<T>(rs: seq<Record>, kind: string, row: Record -> T, x: T)
    ensures x in Select(rs, kind, row) <==> exists i :: 0 <= i < |rs| && IsKind(rs[i], kind) && row(rs[i]) == x
    decreases |rs|
  {
    if rs != [] {
      var n := |rs| - 1;
      SelectMembers(rs[..n], kind, row, x);
      if x in Select(rs, kind, row) && x !in Select(rs[..n], kind, row) {
        assert IsKind(rs[n], kind) && row(rs[n]) == x;
      }
      if exists i :: 0 <= i < |rs| && IsKind(rs[i], kind) && row(rs[i]) == x {
        var i :| 0 <= i < |rs| && IsKind(rs[i], kind) && row(rs[i]) == x;
        if i < n {
          assert rs[..n][i] == rs[i];
        }
      }
    }
  }

  /** A record that is not of the view's type leaves the view unchanged wherever it sits in the log. */
  lemma SelectSkips<T>(a: seq<Record>, r: Record, b: seq<Record>, kind: string, row: Record -> T)
    requires !IsKind(r, kind)
    ensures Select(a + [r] + b, kind, row) == Select(a + b, kind, row)
  {
    SelectAppend(a + [r], b, kind, row);
    SelectAppend(a, [r], kind, row);
    SelectAppend(a, b, kind, row);
    assert Select([r], kind, row) == [];
  }

  /** `ticker_data`: exactly the `ticker` records, keyed by `msg.market_ticker`. */
  lemma TickerDataMembers(rs: seq<Record>, x: TickerRow)
    ensures x in TickerData(rs) <==>
      exists i :: 0 <= i < |rs| && IsKind(rs[i], TICKER_TYPE) && x.ticker == rs[i].marketTicker && x.volume == rs[i].volume
  {
    SelectMembers(rs, TICKER_TYPE, TickerRowOf, x);
  }

  /** `deltas`: exactly the delta records, the sequence number taken from the top-level `seq`. */
  lemma DeltasMembers(rs: seq<Record>, x: DeltaRow)
    ensures x in Deltas(rs) <==>
      exists i :: (0 <= i < |rs| && IsKind(rs[i], DELTA_TYPE)
        && x.ticker == rs[i].marketTicker && x.sequence == rs[i].sequence
        && x.price == rs[i].price && x.delta == rs[i].delta && x.side == rs[i].side)
  {
    SelectMembers(rs, DELTA_TYPE, DeltaRowOf, x);
  }

  /** `snapshots`: exactly the snapshot records. */
  lemma SnapshotsMembers(rs: seq<Record>, x: SnapshotRow)
    ensures x in Snapshots(rs) <==>
      exists i :: (0 <= i < |rs| && IsKind(rs[i], SNAPSHOT_TYPE)
        && x.ticker == rs[i].marketTicker && x.marketId == rs[i].marketId && x.sequence == rs[i].sequence)
  {
    SelectMembers(rs, SNAPSHOT_TYPE, SnapshotRowOf, x);
  }

  /**
   * `SELECT MAX(volume) FROM ticker_data WHERE ticker = t`: the largest
   * non-NULL volume among the rows for `t`, or NULL (`None`) when there is
   * none, which `get_total_volume` reports as an error.
   */
  function MaxVolume(rows: seq<TickerRow>, t: string): (m: Option<int>)
    ensures m.Some? ==> exists i :: 0 <= i < |rows| && rows[i].ticker == Some(t) && rows[i].volume == m
    ensures forall i :: 0 <= i < |rows| && rows[i].ticker == Some(t) && rows[i].volume.Some? ==>
      m.Some? && rows[i].volume.value <= m.value
  {
    if rows == [] then None
    else
      var last := rows[|rows| - 1];
      var m := MaxVolume(rows[..|rows| - 1], t);
      if last.ticker != Some(t) || last.volume.None? then m
      else if m.None? || m.value < last.volume.value then last.volume
      else m
  }

  function TotalVolume(rs: seq<Record>, t: string): Option<int>
  {
    MaxVolume(TickerData(rs), t)
  }

  /** The total volume is the largest volume any `ticker` record for `t` carries. */
  lemma TotalVolumeIsMax(rs: seq<Record>, t: string)
    ensures TotalVolume(rs, t).Some? <==>
      exists i :: 0 <= i < |rs| && IsKind(rs[i], TICKER_TYPE) && rs[i].marketTicker == Some(t) && rs[i].volume.Some?
    ensures forall i :: 0 <= i < |rs| && IsKind(rs[i], TICKER_TYPE) && rs[i].marketTicker == Some(t) && rs[i].volume.Some? ==>
      rs[i].volume.value <= TotalVolume(rs, t).value
    ensures TotalVolume(rs, t).Some? ==>
      exists i :: 0 <= i < |rs| && IsKind(rs[i], TICKER_TYPE) && rs[i].marketTicker == Some(t) && rs[i].volume == TotalVolume(rs, t)
  {
    var v := TickerData(rs);
    forall i | 0 <= i < |rs| && IsKind(rs[i], TICKER_TYPE) && rs[i].marketTicker == Some(t) && rs[i].volume.Some?
      ensures TotalVolume(rs, t).Some? && rs[i].volume.value <= TotalVolume(rs, t).value
    {
      TickerDataMembers(rs, TickerRowOf(rs[i]));
      var k :| 0 <= k < |v| && v[k] == TickerRowOf(rs[i]);
    }
    if TotalVolume(rs, t).Some? {
      var k :| 0 <= k < |v| && v[k].ticker == Some(t) && v[k].volume == TotalVolume(rs, t);
      TickerDataMembers(rs, v[k]);
    }
  }
}
