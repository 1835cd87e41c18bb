/**
 * The in-memory book of the impact study (`OrderBookState` in
 * `examples/impact.py`): a snapshot replaces both sides, a delta adjusts one
 * level of one side and removes it when it drops to zero or below, and the
 * metrics exist only while both sides hold a level.
 *
 * Each side is a price-keyed map; prices and quantities are integers here.
 * The script converts them to floating point, and the floating-point metrics
 * are not modelled, only the top-of-book levels they are computed from.
 */
module Impact {
  import opened Wrappers
  import opened Records
  import opened LevelMap

  /** Yes-side levels as bids, no-side levels as asks. */
  datatype BookState = BookState(bids: PriceMap, asks: PriceMap)

  const EMPTY: BookState := BookState([], [])

  /**
   * What ends the script: indexing an absent message key (`KeyError`), or
   * best volumes that sum to zero in `get_metrics` (`ZeroDivisionError`).
   */
  datatype ScriptError = MissingKey | ZeroVolume

  /** A delta that lacks its price, delta or side: `msg['price']` and the like raise. */
  predicate Raises(r: Record)
  {
    IsKind(r, DELTA_TYPE) && (r.price.None? || r.delta.None? || r.side.None?)
  }

  /** `{p: v for p, v in levels}`. */
  function LevelsToMap(ls: seq<Level>): PriceMap
  {
    if ls == [] then []
    else
      var l := ls[|ls| - 1];
      Insert(LevelsToMap(ls[..|ls| - 1]), l.price, l.quantity)
  }

  /** `msg.get(key, [])`. */
  function LevelsOrEmpty(o: Option<seq<Level>>): seq<Level>
  {
    if o.Some? then o.value else []
  }

  /** `target.get(price, 0)`. */
  function QuantityAt(side: PriceMap, p: int): int
  {
    match Get(side, p)
    case Some(q) => q
    case None => 0
  }

  /** `target[price] = target.get(price, 0) + delta`, then `pop` the level if it is not positive. */
  function ApplyDelta(side: PriceMap, p: int, d: int): (m: PriceMap)
    ensures Get(m, p) == if QuantityAt(side, p) + d > 0 then Some(QuantityAt(side, p) + d) else None
    ensures forall x :: x != p ==> Get(m, x) == Get(side, x)
  {
    var v := QuantityAt(side, p) + d;
    Updates(side, p, v);
    if v <= 0 then Remove(side, p) else Insert(side, p, v)
  }

  /**
   * `OrderBookState.update(type, msg)`: an incomplete delta raises, and
   * anything but a snapshot leaves at least one side as it was. A snapshot
   * whose level list is JSON null is read as an empty list here, where the
   * script would raise.
   */
  function Update(s: BookState, r: Record): (u: Result<BookState, ScriptError>)
    ensures u.Err? <==> Raises(r)
    ensures u.Err? ==> u.error == MissingKey
    ensures u.Ok? && !IsKind(r, SNAPSHOT_TYPE) ==> u.value.bids == s.bids || u.value.asks == s.asks
  {
    KindsDiffer();
    if r.kind == Some(SNAPSHOT_TYPE) then
      Ok(BookState(LevelsToMap(LevelsOrEmpty(r.yes)), LevelsToMap(LevelsOrEmpty(r.no))))
    else if r.kind == Some(DELTA_TYPE) then
      if r.price.None? || r.delta.None? || r.side.None? then Err(MissingKey)
      else if r.side.value == YES then Ok(BookState(ApplyDelta(s.bids, r.price.value, r.delta.value), s.asks))
      else Ok(BookState(s.bids, ApplyDelta(s.asks, r.price.value, r.delta.value)))
    else Ok(s)
  }

  /** Feeding records one by one; an exception ends the loop, so the replay fails exactly when some record raises. */
  function Replay(s: BookState, rs: seq<Record>): (res: Result<BookState, ScriptError>)
    ensures res.Err? <==> exists i :: 0 <= i < |rs| && Raises(rs[i])
  {
    if rs == [] then Ok(s)
    else
      var pre := rs[..|rs| - 1];
      assert forall i :: 0 <= i < |pre| ==> pre[i] == rs[i];
      match Replay(s, pre)
      case Err(e) => Err(e)
      case Ok(s') => Update(s', rs[|rs| - 1])
  }

  /**
   * The levels `get_metrics` reads: the best bid and its volume, and the best
   * ask in yes terms (100 minus the lowest no price) with its volume.
   */
  datatype TopOfBook = TopOfBook(bestBid: int, bidVolume: int, bestAsk: int, askVolume: int)

  /** The best levels of a book with both sides non-empty. */
  function Top(s: BookState): TopOfBook
    requires s.bids != [] && s.asks != []
  {
    var b := s.bids[|s.bids| - 1];
    var a := s.asks[0];
    TopOfBook(b.price, b.quantity, 100 - a.price, a.quantity)
  }

  /**
   * `get_metrics`: `None` unless both sides hold a level. Otherwise the best
   * levels, except that the imbalance divides by the sum of the two best
   * volumes, which raises when that sum is zero, and only a book with a
   * non-positive level can get there.
   */
  function GetMetrics(s: BookState): (t: Result<Option<TopOfBook>, ScriptError>)
    ensures t == Ok(None) <==> s.bids == [] || s.asks == []
    ensures t.Ok? && t.value.Some? ==> t.value.value == Top(s)
    ensures t.Err? <==> s.bids != [] && s.asks != [] && Top(s).bidVolume + Top(s).askVolume == 0
    ensures t.Err? ==> t.error == ZeroVolume && !Positive(s)
  {
    if s.bids == [] || s.asks == [] then Ok(None)
    else
      var t := Top(s);
      if t.bidVolume + t.askVolume == 0 then
        assert s.bids[|s.bids| - 1] in s.bids && s.asks[0] in s.asks;
        Err(ZeroVolume)
      else Ok(Some(t))
  }

  /** What the study has collected after some records: the book and the metrics history. */
  datatype Study = Study(book: BookState, history: seq<TopOfBook>)

  /**
   * The loop of the script's `main`: update the book with each record, then
   * append its metrics to the history when there are any. An exception from
   * either call ends the script. The book the loop holds is the replayed one.
   */
  function RunStudy(rs: seq<Record>): (res: Result<Study, ScriptError>)
    ensures res.Ok? ==> Replay(EMPTY, rs) == Ok(res.value.book) && |res.value.history| <= |rs|
    ensures res.Ok? && rs != [] ==> GetMetrics(res.value.book).Ok?
    ensures res.Ok? && rs != [] && GetMetrics(res.value.book).value.Some? ==>
      res.value.history != [] && res.value.history[|res.value.history| - 1] == GetMetrics(res.value.book).value.value
  {
    if rs == [] then Ok(Study(EMPTY, []))
    else
      match RunStudy(rs[..|rs| - 1])
      case Err(e) => Err(e)
      case Ok(st) =>
        match Update(st.book, rs[|rs| - 1])
        case Err(e) => Err(e)
        case Ok(b) =>
          match GetMetrics(b)
          case Err(e) => Err(e)
          case Ok(None) => Ok(Study(b, st.history))
          case Ok(Some(t)) => Ok(Study(b, st.history + [t]))
  }

  // ---------------------------------------------------------------------
  // Properties.
  // ---------------------------------------------------------------------

  /** The best bid is the highest bid price with its volume; the best ask comes from the lowest no price. */
  lemma MetricsAreBest(s: BookState)
    requires s.bids != [] && s.asks != []
    ensures var t := Top(s);
      && Get(s.bids, t.bestBid) == Some(t.bidVolume)
      && Get(s.asks, 100 - t.bestAsk) == Some(t.askVolume)
      && (forall p :: Get(s.bids, p).Some? ==> p <= t.bestBid)
      && (forall p :: Get(s.asks, p).Some? ==> 100 - t.bestAsk <= p)
  {
    var b := s.bids[|s.bids| - 1];
    var a := s.asks[0];
    GetIff(s.bids, b.price, b.quantity);
    GetIff(s.asks, a.price, a.quantity);
    forall p | Get(s.bids, p).Some?
      ensures p <= b.price
    {
      Extremes(s.bids, p);
    }
    forall p | Get(s.asks, p).Some?
      ensures a.price <= p
    {
      Extremes(s.asks, p);
    }
  }

  /** A price is on a snapshot side exactly when it is listed. */
  lemma {:induction false} LevelsToMapKeys(ls: seq<Level>, p: int)
    ensures Get(LevelsToMap(ls), p).Some? <==> exists i :: 0 <= i < |ls| && ls[i].price == p
    decreases |ls|
  {
    if ls != [] {
      var n := |ls| - 1;
      var pre := ls[..n];
      LevelsToMapKeys(pre, p);
      GetInsert(LevelsToMap(pre), ls[n].price, ls[n].quantity, p);
      if exists i :: 0 <= i < |ls| && ls[i].price == p {
        var i :| 0 <= i < |ls| && ls[i].price == p;
        if i < n {
          assert pre[i] == ls[i];
        }
      }
    }
  }

  /** A listed price carries the quantity it is listed with last. */
  lemma {:induction false} LevelsToMapLastWins(ls: seq<Level>, p: int)
    requires Get(LevelsToMap(ls), p).Some?
    ensures exists i :: (0 <= i < |ls| && ls[i] == Level(p, Get(LevelsToMap(ls), p).value)
      && forall j :: i < j < |ls| ==> ls[j].price != p)
    decreases |ls|
  {
    var n := |ls| - 1;
    var pre := ls[..n];
    var q := Get(LevelsToMap(ls), p).value;
    GetInsert(LevelsToMap(pre), ls[n].price, ls[n].quantity, p);
    if ls[n].price == p {
      assert ls[n] == Level(p, q);
    } else {
      LevelsToMapLastWins(pre, p);
      var i :| 0 <= i < n && pre[i] == Level(p, q) && forall j :: i < j < n ==> pre[j].price != p;
      NotListedAfter(ls, pre, i, p);
    }
  }

  lemma NotListedAfter(ls: seq<Level>, pre: seq<Level>, i: int, p: int)
    requires |ls| > 0 && pre == ls[..|ls| - 1]
    requires 0 <= i < |pre| && ls[|ls| - 1].price != p
    requires forall j :: i < j < |pre| ==> pre[j].price != p
    ensures pre[i] == ls[i]
    ensures forall j :: i < j < |ls| ==> ls[j].price != p
  {
    forall j | i < j < |pre|
      ensures ls[j].price != p
    {
      assert pre[j] == ls[j];
    }
  }

  /** A snapshot replaces both sides with its yes and no levels; a missing list leaves that side empty. */
  lemma SnapshotReplaces(s: BookState, r: Record, p: int)
    requires r.kind == Some(SNAPSHOT_TYPE)
    ensures Update(s, r).Ok?
    ensures r.yes.None? ==> Update(s, r).value.bids == []
    ensures r.no.None? ==> Update(s, r).value.asks == []
    ensures Get(Update(s, r).value.bids, p).Some? <==> exists l :: l in LevelsOrEmpty(r.yes) && l.price == p
    ensures Get(Update(s, r).value.asks, p).Some? <==> exists l :: l in LevelsOrEmpty(r.no) && l.price == p
  {
    LevelsToMapKeys(LevelsOrEmpty(r.yes), p);
    LevelsToMapKeys(LevelsOrEmpty(r.no), p);
  }

  /** A delta touches one level of one side: "yes" the bids, anything else the asks. */
  lemma DeltaTouchesOneLevel(s: BookState, r: Record)
    requires r.kind == Some(DELTA_TYPE) && r.price.Some? && r.delta.Some? && r.side.Some?
    ensures Update(s, r).Ok?
    ensures var s' := Update(s, r).value;
      && (r.side == Some(YES) ==> s'.asks == s.asks)
      && (r.side != Some(YES) ==> s'.bids == s.bids)
      && (forall x :: x != r.price.value ==> Get(s'.bids, x) == Get(s.bids, x) && Get(s'.asks, x) == Get(s.asks, x))
  {
  }

  /** After a delta the touched level holds the old quantity (0 when absent) plus the delta, or is gone if that is not positive. */
  lemma DeltaAdds(s: BookState, r: Record)
    requires r.kind == Some(DELTA_TYPE) && r.price.Some? && r.delta.Some? && r.side.Some?
    ensures var s' := Update(s, r).value; var p := r.price.value;
      var before := if r.side == Some(YES) then s.bids else s.asks;
      var after := if r.side == Some(YES) then s'.bids else s'.asks;
      var v := QuantityAt(before, p) + r.delta.value;
      && (Get(after, p).Some? <==> v > 0)
      && (Get(after, p).Some? ==> Get(after, p).value == v > 0)
  {
  }

  /** A delta without a price, delta or side raises; any other type leaves the book as it was. */
  lemma OtherRecords(s: BookState, r: Record)
    ensures r.kind == Some(DELTA_TYPE) && (r.price.None? || r.delta.None? || r.side.None?) ==> Update(s, r) == Err(MissingKey)
    ensures r.kind != Some(DELTA_TYPE) && r.kind != Some(SNAPSHOT_TYPE) ==> Update(s, r) == Ok(s)
  {
  }

  predicate AllPositive(ls: seq<Level>)
  {
    forall l :: l in ls ==> l.quantity > 0
  }

  predicate Positive(s: BookState)
  {
    AllPositive(s.bids) && AllPositive(s.asks)
  }

  predicate PositiveSnapshots(rs: seq<Record>)
  {
    forall i :: 0 <= i < |rs| && IsKind(rs[i], SNAPSHOT_TYPE) ==>
      AllPositive(LevelsOrEmpty(rs[i].yes)) && AllPositive(LevelsOrEmpty(rs[i].no))
  }

  /** Every price present looks up to a positive quantity. */
  ghost predicate PositiveLookups(m: PriceMap)
  {
    forall p :: Get(m, p).Some? ==> Get(m, p).value > 0
  }

  /** A map's levels are positive exactly when every price looks up to a positive quantity. */
  lemma PositiveByGet(m: PriceMap)
    ensures AllPositive(m) <==> PositiveLookups(m)
  {
    if AllPositive(m) {
      forall p | Get(m, p).Some?
        ensures Get(m, p).value > 0
      {
        assert Level(p, Get(m, p).value) in m;
      }
    }
    if PositiveLookups(m) {
      forall l | l in m
        ensures l.quantity > 0
      {
        GetIff(m, l.price, l.quantity);
      }
    }
  }

  lemma {:induction false} LevelsToMapPositive(ls: seq<Level>)
    requires AllPositive(ls)
    ensures AllPositive(LevelsToMap(ls))
    decreases |ls|
  {
    if ls != [] {
      var n := |ls| - 1;
      var pre := LevelsToMap(ls[..n]);
      assert AllPositive(ls[..n]) by {
        forall l | l in ls[..n]
          ensures l in ls
        {
        }
      }
      LevelsToMapPositive(ls[..n]);
      PositiveByGet(pre);
      Updates(pre, ls[n].price, ls[n].quantity);
      PositiveByGet(LevelsToMap(ls));
    }
  }

  lemma DeltaKeepsPositive(s: BookState, r: Record)
    requires Positive(s)
    requires r.kind == Some(DELTA_TYPE) && r.price.Some? && r.delta.Some? && r.side.Some?
    ensures Positive(Update(s, r).value)
  {
    var s' := Update(s, r).value;
    PositiveByGet(s.bids);
    PositiveByGet(s.asks);
    PositiveByGet(s'.bids);
    PositiveByGet(s'.asks);
  }

  /** Starting from an empty book, if no snapshot lists a non-positive quantity, every level stays positive. */
  lemma {:induction false} ReplayStaysPositive(rs: seq<Record>)
    requires PositiveSnapshots(rs)
    ensures Replay(EMPTY, rs).Ok? ==> Positive(Replay(EMPTY, rs).value)
    decreases |rs|
  {
    if rs != [] {
      var n := |rs| - 1;
      var pre := rs[..n];
      assert PositiveSnapshots(pre) by {
        forall i | 0 <= i < n
          ensures pre[i] == rs[i]
        {
        }
      }
      ReplayStaysPositive(pre);
      var r := rs[n];
      if Replay(EMPTY, pre).Ok? {
        var s := Replay(EMPTY, pre).value;
        if IsKind(r, SNAPSHOT_TYPE) {
          LevelsToMapPositive(LevelsOrEmpty(r.yes));
          LevelsToMapPositive(LevelsOrEmpty(r.no));
        } else if IsKind(r, DELTA_TYPE) && r.price.Some? && r.delta.Some? && r.side.Some? {
          DeltaKeepsPositive(s, r);
        }
      }
    }
  }

  /**
   * On a log where no delta lacks a field and no snapshot lists a
   * non-positive quantity, the script runs to the end: every level stays
   * positive, so the best volumes never sum to zero.
   */
  lemma {:induction false} StudyCompletes(rs: seq<Record>)
    requires PositiveSnapshots(rs)
    requires forall i :: 0 <= i < |rs| ==> !Raises(rs[i])
    ensures RunStudy(rs).Ok?
    decreases |rs|
  {
    if rs != [] {
      var n := |rs| - 1;
      var pre := rs[..n];
      assert forall i :: 0 <= i < n ==> pre[i] == rs[i];
      StudyCompletes(pre);
      ReplayStaysPositive(rs);
    }
  }

  /** A snapshot whose only levels both hold zero ends the script in `get_metrics`. */
  lemma ZeroVolumeStopsStudy(r: Record)
    requires IsKind(r, SNAPSHOT_TYPE) && r.yes == Some([Level(50, 0)]) && r.no == Some([Level(40, 0)])
    ensures RunStudy([r]) == Err(ZeroVolume)
  {
    assert [Level(50, 0)][..0] == [] && [Level(40, 0)][..0] == [];
    assert [r][..0] == [];
  }
}
