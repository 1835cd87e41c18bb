/**
 * Book reconstruction by summing deltas (`reconstruct_book` in
 * `src/analysis/book.rs`): the deltas of one ticker are grouped by
 * (price, side) and summed; groups with a positive total are read back in
 * order and filed into an ordered map per side, "yes" into bids and every
 * other side into asks; bids come out from the highest price down and asks
 * from the lowest up. Snapshots are not consulted.
 */
module Book {
  import opened Wrappers
  import opened Records
  import opened LevelMap
  import Engine

  const RECONSTRUCTED: string := "reconstructed"

  /** `LocalOrderbook` of `src/analysis/models.rs`. */
  datatype LocalOrderbook = LocalOrderbook(ticker: string, bids: seq<Level>, asks: seq<Level>, timestamp: string)

  /** Reading a NULL price or side into a Rust `f64` or `String` fails the whole call. */
  datatype BookError = NullColumn

  /** A `GROUP BY price, side` key; SQL puts all NULLs of a column in one group. */
  datatype Group = Group(price: Option<int>, side: Option<string>)

  /** One result row of the aggregate query: `price, SUM(delta) AS total_qty, side`. */
  datatype QueryRow = QueryRow(price: Option<int>, total: int, side: Option<string>)

  function GroupOf(d: Engine.DeltaRow): Group
  {
    Group(d.price, d.side)
  }

  /** `FROM deltas WHERE ticker = t`, in log order. */
  function ForTicker(ds: seq<Engine.DeltaRow>, t: string): (rows: seq<Engine.DeltaRow>)
    ensures forall i :: 0 <= i < |rows| ==> rows[i].ticker == Some(t)
  {
    if ds == [] then []
    else
      var d := ds[|ds| - 1];
      ForTicker(ds[..|ds| - 1], t) + (if d.ticker == Some(t) then [d] else [])
  }

  /** The distinct groups of `rows`, in order of first appearance. */
  function Groups(rows: seq<Engine.DeltaRow>): (gs: seq<Group>)
    ensures forall i, j :: 0 <= i < j < |gs| ==> gs[i] != gs[j]
  {
    if rows == [] then []
    else
      var gs := Groups(rows[..|rows| - 1]);
      var g := GroupOf(rows[|rows| - 1]);
      if g in gs then gs else gs + [g]
  }

  /** `SUM(delta)` over the rows of group `g`: NULL deltas are skipped, and a sum of none is NULL. */
  function Total(rows: seq<Engine.DeltaRow>, g: Group): Option<int>
  {
    if rows == [] then None
    else
      var d := rows[|rows| - 1];
      SqlAdd(Total(rows[..|rows| - 1], g), if GroupOf(d) == g then d.delta else None)
  }

  /** The groups of `gs` that pass `HAVING total_qty > 0`, with their totals. */
  function Having(rows: seq<Engine.DeltaRow>, gs: seq<Group>): (qs: seq<QueryRow>)
    ensures |qs| <= |gs|
    ensures forall i :: 0 <= i < |qs| ==> qs[i].total > 0
  {
    if gs == [] then []
    else
      var g := gs[|gs| - 1];
      var t := Total(rows, g);
      Having(rows, gs[..|gs| - 1]) + (if t.Some? && t.value > 0 then [QueryRow(g.price, t.value, g.side)] else [])
  }

  /** The rows of the aggregate query. Its `ORDER BY price` only decides ties between asks, which are left open. */
  function Query(rows: seq<Engine.DeltaRow>): seq<QueryRow>
  {
    Having(rows, Groups(rows))
  }

  predicate DistinctKeys(qs: seq<QueryRow>)
  {
    forall i, j :: 0 <= i < j < |qs| ==> Group(qs[i].price, qs[i].side) != Group(qs[j].price, qs[j].side)
  }

  /** The loop over the query rows: the first row with a NULL price or side aborts; others go into bids or asks. */
  function Fill(qs: seq<QueryRow>): (r: Result<(seq<Level>, seq<Level>), BookError>)
    ensures r.Ok? ==> Ascending(r.value.0) && Ascending(r.value.1)
  {
    if qs == [] then Ok(([], []))
    else
      match Fill(qs[..|qs| - 1])
      case Err(e) => Err(e)
      case Ok((bids, asks)) =>
        var q := qs[|qs| - 1];
        if q.price.None? || q.side.None? then Err(NullColumn)
        else if q.side.value == YES then Ok((Insert(bids, q.price.value, q.total), asks))
        else Ok((bids, Insert(asks, q.price.value, q.total)))
  }

  function ReconstructBook(rs: seq<Record>, t: string): (r: Result<LocalOrderbook, BookError>)
    ensures r.Ok? ==> r.value.ticker == t && r.value.timestamp == RECONSTRUCTED
    ensures r.Ok? ==> Descending(r.value.bids) && Ascending(r.value.asks)
  {
    var qs := Query(ForTicker(Engine.Deltas(rs), t));
    match Fill(qs)
    case Err(e) => Err(e)
    case Ok((bids, asks)) =>
      ReverseDescending(bids);
      Ok(LocalOrderbook(t, Reverse(bids), asks, RECONSTRUCTED))
  }

  // ---------------------------------------------------------------------
  // The query.
  // ---------------------------------------------------------------------

  lemma {:induction false} GroupsMembers(rows: seq<Engine.DeltaRow>, g: Group)
    ensures g in Groups(rows) <==> exists i :: 0 <= i < |rows| && GroupOf(rows[i]) == g
    decreases |rows|
  {
    if rows != [] {
      var n := |rows| - 1;
      GroupsMembers(rows[..n], g);
      if exists i :: 0 <= i < |rows| && GroupOf(rows[i]) == g {
        var i :| 0 <= i < |rows| && GroupOf(rows[i]) == g;
        if i < n {
          assert rows[..n][i] == rows[i];
        }
      }
    }
  }

  /** A group has a (non-NULL) total only if one of the rows belongs to it. */
  lemma {:induction false} TotalHasGroup(rows: seq<Engine.DeltaRow>, g: Group)
    requires Total(rows, g).Some?
    ensures g in Groups(rows)
    decreases |rows|
  {
    var n := |rows| - 1;
    if Total(rows[..n], g).Some? {
      TotalHasGroup(rows[..n], g);
      GroupsMembers(rows[..n], g);
      var i :| 0 <= i < n && GroupOf(rows[..n][i]) == g;
      GroupsMembers(rows, g);
    } else {
      GroupsMembers(rows, g);
    }
  }

  lemma {:induction false} HavingMembers(rows: seq<Engine.DeltaRow>, gs: seq<Group>, x: QueryRow)
    ensures x in Having(rows, gs) <==>
      Group(x.price, x.side) in gs && x.total > 0 && Total(rows, Group(x.price, x.side)) == Some(x.total)
    decreases |gs|
  {
    if gs != [] {
      var n := |gs| - 1;
      HavingMembers(rows, gs[..n], x);
      assert gs == gs[..n] + [gs[n]];
    }
  }

  lemma {:induction false} HavingDistinct(rows: seq<Engine.DeltaRow>, gs: seq<Group>)
    requires forall i, j :: 0 <= i < j < |gs| ==> gs[i] != gs[j]
    ensures DistinctKeys(Having(rows, gs))
    decreases |gs|
  {
    if gs != [] {
      var n := |gs| - 1;
      var pre := gs[..n];
      HavingDistinct(rows, pre);
      var qs := Having(rows, gs);
      var ps := Having(rows, pre);
      if |qs| > |ps| {
        var last := qs[|qs| - 1];
        assert Group(last.price, last.side) == gs[n];
        forall i | 0 <= i < |ps|
          ensures Group(ps[i].price, ps[i].side) != gs[n]
        {
          HavingMembers(rows, pre, ps[i]);
        }
      }
    }
  }

  /** A query row is exactly a group with a positive total. */
  lemma QueryMembers(rows: seq<Engine.DeltaRow>, x: QueryRow)
    ensures x in Query(rows) <==> x.total > 0 && Total(rows, Group(x.price, x.side)) == Some(x.total)
  {
    HavingMembers(rows, Groups(rows), x);
    if Total(rows, Group(x.price, x.side)).Some? {
      TotalHasGroup(rows, Group(x.price, x.side));
    }
  }

  // ---------------------------------------------------------------------
  // Filing the rows into the two sides.
  // ---------------------------------------------------------------------

  /** The loop fails exactly when some row has a NULL price or side. */
  lemma {:induction false} FillFails(qs: seq<QueryRow>)
    ensures Fill(qs).Err? <==> exists i :: 0 <= i < |qs| && (qs[i].price.None? || qs[i].side.None?)
    decreases |qs|
  {
    if qs != [] {
      var n := |qs| - 1;
      FillFails(qs[..n]);
      if exists i :: 0 <= i < |qs| && (qs[i].price.None? || qs[i].side.None?) {
        var i :| 0 <= i < |qs| && (qs[i].price.None? || qs[i].side.None?);
        if i < n {
          assert qs[..n][i] == qs[i];
        }
      }
    }
  }

  /** With one row per group, the bids hold exactly the "yes" rows. */
  lemma {:induction false} FillBids(qs: seq<QueryRow>, p: int, q: int)
    requires DistinctKeys(qs)
    requires Fill(qs).Ok?
    ensures Get(Fill(qs).value.0, p) == Some(q) <==> QueryRow(Some(p), q, Some(YES)) in qs
    decreases |qs|
  {
    if qs != [] {
      var n := |qs| - 1;
      var pre := qs[..n];
      var last := qs[n];
      assert qs == pre + [last];
      FillBids(pre, p, q);
      var (bids, asks) := Fill(pre).value;
      if last.side == Some(YES) {
        GetInsert(bids, last.price.value, last.total, p);
      }
    }
  }

  /** Every ask comes from a non-"yes" row at its price, and every such row's price is asked. */
  lemma {:induction false} FillAsks(qs: seq<QueryRow>, p: int)
    requires Fill(qs).Ok?
    ensures Get(Fill(qs).value.1, p).Some? ==>
      exists s :: s != YES && QueryRow(Some(p), Get(Fill(qs).value.1, p).value, Some(s)) in qs
    ensures forall q, s :: s != YES && QueryRow(Some(p), q, Some(s)) in qs ==> Get(Fill(qs).value.1, p).Some?
    decreases |qs|
  {
    if qs != [] {
      var n := |qs| - 1;
      var pre := qs[..n];
      var last := qs[n];
      assert qs == pre + [last];
      FillAsks(pre, p);
      var (bids, asks) := Fill(pre).value;
      var asks' := Fill(qs).value.1;
      if last.side != Some(YES) {
        GetInsert(asks, last.price.value, last.total, p);
        if last.price == Some(p) {
          assert QueryRow(Some(p), last.total, Some(last.side.value)) in qs;
        } else if Get(asks', p).Some? {
          var s :| s != YES && QueryRow(Some(p), Get(asks, p).value, Some(s)) in pre;
          assert QueryRow(Some(p), Get(asks', p).value, Some(s)) in qs;
        }
      } else if Get(asks', p).Some? {
        var s :| s != YES && QueryRow(Some(p), Get(asks, p).value, Some(s)) in pre;
        assert QueryRow(Some(p), Get(asks', p).value, Some(s)) in qs;
      }
    }
  }

  // ---------------------------------------------------------------------
  // The reconstruction as a whole.
  // ---------------------------------------------------------------------

  /** The call fails exactly when a group with a positive total has a NULL price or side. */
  lemma BookFails(rs: seq<Record>, t: string)
    ensures var rows := ForTicker(Engine.Deltas(rs), t);
      ReconstructBook(rs, t).Err? <==>
        exists g: Group :: (g.price.None? || g.side.None?) && Total(rows, g).Some? && Total(rows, g).value > 0
  {
    var rows := ForTicker(Engine.Deltas(rs), t);
    var qs := Query(rows);
    FillFails(qs);
    if ReconstructBook(rs, t).Err? {
      var i :| 0 <= i < |qs| && (qs[i].price.None? || qs[i].side.None?);
      QueryMembers(rows, qs[i]);
      assert Total(rows, Group(qs[i].price, qs[i].side)).Some?;
    }
    if exists g: Group :: (g.price.None? || g.side.None?) && Total(rows, g).Some? && Total(rows, g).value > 0 {
      var g: Group :| (g.price.None? || g.side.None?) && Total(rows, g).Some? && Total(rows, g).value > 0;
      var x := QueryRow(g.price, Total(rows, g).value, g.side);
      QueryMembers(rows, x);
      var i :| 0 <= i < |qs| && qs[i] == x;
    }
  }

  /** A bid level is a price whose "yes" deltas for `t` sum to a positive quantity, and that sum. */
  lemma BookBids(rs: seq<Record>, t: string, p: int, q: int)
    requires ReconstructBook(rs, t).Ok?
    ensures var rows := ForTicker(Engine.Deltas(rs), t);
      Level(p, q) in ReconstructBook(rs, t).value.bids <==> q > 0 && Total(rows, Group(Some(p), Some(YES))) == Some(q)
  {
    var rows := ForTicker(Engine.Deltas(rs), t);
    var qs := Query(rows);
    HavingDistinct(rows, Groups(rows));
    FillBids(qs, p, q);
    var bids := Fill(qs).value.0;
    GetIff(bids, p, q);
    ReverseDescending(bids);
    QueryMembers(rows, QueryRow(Some(p), q, Some(YES)));
  }

  /** An ask level is the positive total of some non-"yes" side at that price. */
  lemma BookAsksSound(rs: seq<Record>, t: string, p: int, q: int)
    requires ReconstructBook(rs, t).Ok?
    requires Level(p, q) in ReconstructBook(rs, t).value.asks
    ensures var rows := ForTicker(Engine.Deltas(rs), t);
      q > 0 && exists s :: s != YES && Total(rows, Group(Some(p), Some(s))) == Some(q)
  {
    var rows := ForTicker(Engine.Deltas(rs), t);
    var qs := Query(rows);
    var asks := Fill(qs).value.1;
    GetIff(asks, p, q);
    FillAsks(qs, p);
    var s :| s != YES && QueryRow(Some(p), q, Some(s)) in qs;
    QueryMembers(rows, QueryRow(Some(p), q, Some(s)));
  }

  /** Every price with a positive total on a non-"yes" side has an ask level. */
  lemma BookAsksComplete(rs: seq<Record>, t: string, p: int, s: string)
    requires ReconstructBook(rs, t).Ok?
    requires s != YES
    requires var tot := Total(ForTicker(Engine.Deltas(rs), t), Group(Some(p), Some(s))); tot.Some? && tot.value > 0
    ensures exists q :: Level(p, q) in ReconstructBook(rs, t).value.asks
  {
    var rows := ForTicker(Engine.Deltas(rs), t);
    var qs := Query(rows);
    var asks := Fill(qs).value.1;
    var q := Total(rows, Group(Some(p), Some(s))).value;
    QueryMembers(rows, QueryRow(Some(p), q, Some(s)));
    FillAsks(qs, p);
    var q' := Get(asks, p).value;
    GetIff(asks, p, q');
  }

  // ---------------------------------------------------------------------
  // Only the ticker's deltas matter.
  // ---------------------------------------------------------------------

  lemma {:induction false} ForTickerAppend(a: seq<Engine.DeltaRow>, b: seq<Engine.DeltaRow>, t: string)
    ensures ForTicker(a + b, t) == ForTicker(a, t) + ForTicker(b, t)
    decreases |b|
  {
    if b == [] {
      assert a + b == a;
    } else {
      var n := |b| - 1;
      assert (a + b)[..|a + b| - 1] == a + b[..n];
      assert (a + b)[|a + b| - 1] == b[n];
      ForTickerAppend(a, b[..n], t);
    }
  }

  /** The rows for `t` are the same when the log gains a record that is not a delta for `t`. */
  lemma RowsIgnoreOtherRecords(a: seq<Record>, r: Record, b: seq<Record>, t: string)
    requires !(IsKind(r, DELTA_TYPE) && r.marketTicker == Some(t))
    ensures ForTicker(Engine.Deltas(a + [r] + b), t) == ForTicker(Engine.Deltas(a + b), t)
  {
    if !IsKind(r, DELTA_TYPE) {
      Engine.SelectSkips(a, r, b, DELTA_TYPE, Engine.DeltaRowOf);
    } else {
      var f := Engine.DeltaRowOf;
      Engine.SelectAppend(a + [r], b, DELTA_TYPE, f);
      Engine.SelectAppend(a, [r], DELTA_TYPE, f);
      Engine.SelectAppend(a, b, DELTA_TYPE, f);
      var da, db := Engine.Deltas(a), Engine.Deltas(b);
      assert Engine.Select([r], DELTA_TYPE, f) == [f(r)];
      ForTickerAppend(da + [f(r)], db, t);
      ForTickerAppend(da, [f(r)], t);
      ForTickerAppend(da, db, t);
      assert ForTicker([f(r)], t) == [];
    }
  }

  /** Adding a record that is not a delta for `t`, anywhere in the log, changes nothing: snapshots are not consulted. */
  lemma BookIgnoresOtherRecords(a: seq<Record>, r: Record, b: seq<Record>, t: string)
    requires !(IsKind(r, DELTA_TYPE) && r.marketTicker == Some(t))
    ensures ReconstructBook(a + [r] + b, t) == ReconstructBook(a + b, t)
  {
    RowsIgnoreOtherRecords(a, r, b, t);
  }
}
