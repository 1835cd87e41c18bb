/**
 * The Python analyzer's reconstruction (`Analyzer.load_all` in
 * `python/orderbook/analyzer.py`): for every `.jsonl` log file, the snapshot
 * levels are exploded into rows, every delta is tagged with its epoch (the
 * latest snapshot at or before it), the deltas are summed per
 * (epoch, side, price) in sequence order, and the running sums are joined to
 * the epoch's snapshot levels; rows whose resulting quantity is not positive
 * are dropped.
 *
 * Tables are sequences of rows; SQL leaves row order open, so the contracts
 * never fix an order. `EventsMembers` and `DeltaSumsMembers` state both which
 * rows appear and how many; `OrderbookMembers` states membership only.
 */
module Analyzer {
  import opened Wrappers
  import opened Records

  // ---------------------------------------------------------------------
  // File filter and table naming.
  // ---------------------------------------------------------------------

  const JSONL: string := ".jsonl"

  predicate EndsWith(s: string, suffix: string)
  {
    |suffix| <= |s| && s[|s| - |suffix|..] == suffix
  }

  /** `str.replace(old, new)`: every non-overlapping occurrence, scanning from the left. */
  function ReplaceAll(s: string, pat: string, rep: string): string
    requires pat != []
    decreases |s|
  {
    if |s| < |pat| then s
    else if s[..|pat|] == pat then rep + ReplaceAll(s[|pat|..], pat, rep)
    else [s[0]] + ReplaceAll(s[1..], pat, rep)
  }

  /** `str.lower()` on ASCII letters. */
  function Lower(c: char): char
  {
    if 'A' <= c <= 'Z' then (c as int + 32) as char else c
  }

  /** `str.lower()` on an ASCII string. */
  function LowerAll(s: string): (r: string)
    ensures |r| == |s|
  {
    seq(|s|, i requires 0 <= i < |s| => Lower(s[i]))
  }

  /** `file.replace(".jsonl", "").replace("-", "_").lower()`. */
  function TableName(file: string): string
  {
    LowerAll(ReplaceAll(ReplaceAll(file, JSONL, ""), "-", "_"))
  }

  /** The name of the reconstructed view for a log file. */
  function ViewName(file: string): string
  {
    "orderbook_" + TableName(file)
  }

  // ---------------------------------------------------------------------
  // The tables of one file.
  // ---------------------------------------------------------------------

  /** The rows `f` gives for each element of `xs`, concatenated in order. */
  function FlatMap<T, U>(xs: seq<T>, f: T -> seq<U>): seq<U>
  {
    if xs == [] then [] else FlatMap(xs[..|xs| - 1], f) + f(xs[|xs| - 1])
  }

  /** How many elements of `xs` satisfy `p`. */
  function Count<T>(xs: seq<T>, p: T -> bool): nat
  {
    if xs == [] then 0 else Count(xs[..|xs| - 1], p) + (if p(xs[|xs| - 1]) then 1 else 0)
  }

  /** `COALESCE(msg.market_ticker, msg.msg.market_ticker)`. */
  function MarketTicker(r: Record): Option<string>
  {
    if r.marketTicker.Some? then r.marketTicker else r.nestedTicker
  }

  /** A row of `snapshots_<table>`: one level of one snapshot. */
  datatype SnapRow = SnapRow(marketTicker: Option<string>, snapSeq: Option<int>, side: string, price: int, qty: int)

  /** A row of `deltas_<table>`, tagged with the epoch it belongs to. */
  datatype EventRow = EventRow(marketTicker: Option<string>, sequence: Option<int>, side: Option<string>,
                               price: Option<int>, delta: Option<int>, lastSnapSeq: Option<int>)

  /** A row of the `delta_sums` step: the running sum within (epoch, side, price). */
  datatype SumRow = SumRow(lastSnapSeq: Option<int>, side: Option<string>, price: Option<int>, sequence: Option<int>, cumDelta: int)

  /** A row of `orderbook_<table>`. */
  datatype BookRow = BookRow(sequence: Option<int>, side: Option<string>, price: Option<int>, currentQty: int)

  function LevelRows(r: Record, side: string, levels: seq<Level>): (rows: seq<SnapRow>)
    ensures |rows| == |levels|
    ensures forall i :: 0 <= i < |levels| ==>
      rows[i] == SnapRow(MarketTicker(r), r.sequence, side, levels[i].price, levels[i].quantity)
  {
    seq(|levels|, i requires 0 <= i < |levels| => SnapRow(MarketTicker(r), r.sequence, side, levels[i].price, levels[i].quantity))
  }

  function Unnest(o: Option<seq<Level>>): seq<Level>
  {
    if o.Some? then o.value else []
  }

  /** The rows one record contributes to one side of the snapshot table. */
  function SideLevels(r: Record, side: string): seq<SnapRow>
  {
    if !IsKind(r, SNAPSHOT_TYPE) then []
    else LevelRows(r, side, if side == YES then Unnest(r.yes) else Unnest(r.no))
  }

  /** One side of the snapshot table: each snapshot's levels of that side, in log order. */
  function SideRows(rs: seq<Record>, side: string): seq<SnapRow>
  {
    FlatMap(rs, r => SideLevels(r, side))
  }

  /** `snapshots_<table>`: the yes levels of every snapshot, then (`UNION ALL`) the no levels. */
  function SnapshotLevels(rs: seq<Record>): seq<SnapRow>
  {
    SideRows(rs, YES) + SideRows(rs, NO)
  }

  /**
   * A snapshot record `s` opens an epoch visible to the row at `sq` of
   * partition `t`: `MAX(...) OVER (PARTITION BY market_ticker ORDER BY seq)`
   * sees every row whose seq is at most the current one, and a NULL seq sorts
   * last, so it sees the whole partition.
   */
  predicate Opens(s: Record, t: Option<string>, sq: Option<int>)
  {
    IsKind(s, SNAPSHOT_TYPE) && s.sequence.Some? && MarketTicker(s) == t
      && (sq.None? || s.sequence.value <= sq.value)
  }

  /** The epoch of a row: the greatest seq of a snapshot that `Opens` for it, or NULL. */
  function Epoch(rs: seq<Record>, t: Option<string>, sq: Option<int>): (e: Option<int>)
    ensures e.Some? ==> exists i :: 0 <= i < |rs| && Opens(rs[i], t, sq) && rs[i].sequence == e
    ensures forall i :: 0 <= i < |rs| && Opens(rs[i], t, sq) ==> e.Some? && rs[i].sequence.value <= e.value
  {
    if rs == [] then None
    else
      var s := rs[|rs| - 1];
      var e := Epoch(rs[..|rs| - 1], t, sq);
      if !Opens(s, t, sq) then e
      else if e.None? || e.value < s.sequence.value then s.sequence
      else e
  }

  predicate IsEvent(r: Record)
  {
    IsKind(r, DELTA_TYPE) || IsKind(r, SNAPSHOT_TYPE)
  }

  /** The row of `deltas_<table>` for record `r` of the log `all`, tagged with its epoch. */
  function EventOf(all: seq<Record>, r: Record): EventRow
  {
    var t := MarketTicker(r);
    EventRow(t, r.sequence, r.side, r.price, r.delta, Epoch(all, t, r.sequence))
  }

  /** `deltas_<table>`: the delta and snapshot records, in log order. */
  function Events(rs: seq<Record>): seq<EventRow>
  {
    FlatMap(rs, r => if IsEvent(r) then [EventOf(rs, r)] else [])
  }

  /**
   * The window frame of `SUM(delta) OVER (PARTITION BY last_snap_seq, side, price ORDER BY seq)`:
   * the rows of `e`'s partition whose seq is at most `e`'s (all of them when `e`'s seq is NULL).
   */
  predicate InFrame(x: EventRow, e: EventRow)
  {
    x.lastSnapSeq == e.lastSnapSeq && x.side == e.side && x.price == e.price
      && (e.sequence.None? || (x.sequence.Some? && x.sequence.value <= e.sequence.value))
  }

  /** The sum of the non-NULL deltas in `e`'s frame. */
  function CumDelta(es: seq<EventRow>, e: EventRow): int
  {
    if es == [] then 0
    else
      var x := es[|es| - 1];
      CumDelta(es[..|es| - 1], e) + (if x.delta.Some? && InFrame(x, e) then x.delta.value else 0)
  }

  /** The `delta_sums` row of event `e`: its running sum over the events `all`. */
  function SumOf(all: seq<EventRow>, e: EventRow): SumRow
  {
    SumRow(e.lastSnapSeq, e.side, e.price, e.sequence, CumDelta(all, e))
  }

  predicate HasDelta(e: EventRow)
  {
    e.delta.Some?
  }

  /** `delta_sums`: the events with a delta, each with its running sum. */
  function DeltaSums(es: seq<EventRow>): seq<SumRow>
  {
    FlatMap(es, (e: EventRow) => if e.delta.Some? then [SumOf(es, e)] else [])
  }

  /** The join condition; SQL equality never holds on NULL. */
  predicate Matches(d: SumRow, s: SnapRow)
  {
    d.lastSnapSeq.Some? && s.snapSeq.Some? && d.lastSnapSeq.value == s.snapSeq.value
      && d.side == Some(s.side) && d.price == Some(s.price)
  }

  predicate HasMatch(d: SumRow, ss: seq<SnapRow>)
  {
    exists j :: 0 <= j < |ss| && Matches(d, ss[j])
  }

  predicate Matched(s: SnapRow, ds: seq<SumRow>)
  {
    exists i :: 0 <= i < |ds| && Matches(ds[i], s)
  }

  function Joined(d: SumRow, s: SnapRow): BookRow
  {
    BookRow(if d.sequence.Some? then d.sequence else s.snapSeq, d.side, d.price, s.qty + d.cumDelta)
  }

  function DeltaOnly(d: SumRow): BookRow
  {
    BookRow(d.sequence, d.side, d.price, d.cumDelta)
  }

  function SnapshotOnly(s: SnapRow): BookRow
  {
    BookRow(s.snapSeq, Some(s.side), Some(s.price), s.qty)
  }

  /** `WHERE current_qty > 0`. */
  function Positive(rows: seq<BookRow>): seq<BookRow>
  {
    FlatMap(rows, (b: BookRow) => if b.currentQty > 0 then [b] else [])
  }

  /** The rows `d` contributes to the full outer join: one per matching level, or itself alone. */
  function RowsOfSum(d: SumRow, ss: seq<SnapRow>): seq<BookRow>
  {
    var paired := PairsWith(d, ss);
    if paired == [] then [DeltaOnly(d)] else paired
  }

  /** `d` joined with each snapshot level it matches. */
  function PairsWith(d: SumRow, ss: seq<SnapRow>): seq<BookRow>
  {
    FlatMap(ss, s => if Matches(d, s) then [Joined(d, s)] else [])
  }

  /** The left side of the full outer join: every sum row with its matches, or alone. */
  function LeftRows(ds: seq<SumRow>, ss: seq<SnapRow>): seq<BookRow>
  {
    FlatMap(ds, d => RowsOfSum(d, ss))
  }

  /** The snapshot levels of `ss` that no sum row of `all` matches. */
  function Unmatched(all: seq<SumRow>, ss: seq<SnapRow>): seq<BookRow>
  {
    FlatMap(ss, s => if MatchedBy(s, all) then [] else [SnapshotOnly(s)])
  }

  /** `Matched`, computed. */
  function MatchedBy(s: SnapRow, ds: seq<SumRow>): (b: bool)
    ensures b <==> Matched(s, ds)
  {
    if ds == [] then false
    else if Matches(ds[|ds| - 1], s) then true
    else
      var b := MatchedBy(s, ds[..|ds| - 1]);
      assert Matched(s, ds[..|ds| - 1]) ==> Matched(s, ds);
      assert Matched(s, ds) ==> Matched(s, ds[..|ds| - 1]) by {
        if Matched(s, ds) {
          var i :| 0 <= i < |ds| && Matches(ds[i], s);
          assert ds[..|ds| - 1][i] == ds[i];
        }
      }
      b
  }

  /** `orderbook_<table>`: no level it shows has a quantity of zero or below. */
  function Orderbook(rs: seq<Record>): (book: seq<BookRow>)
    ensures forall b :: b in book ==> b.currentQty > 0
  {
    var ds := DeltaSums(Events(rs));
    var ss := SnapshotLevels(rs);
    PositiveOnly(LeftRows(ds, ss) + Unmatched(ds, ss));
    Positive(LeftRows(ds, ss) + Unmatched(ds, ss))
  }

  // ---------------------------------------------------------------------
  // Loading a directory.
  // ---------------------------------------------------------------------

  /** A log file: its name and its decoded lines. */
  datatype LogFile = LogFile(name: string, records: seq<Record>)

  /**
   * Every element with a key, in order, (re)binds that key to its value, so
   * a later element wins a clash.
   */
  function Register<T, K, V>(xs: seq<T>, key: T -> Option<K>, val: T -> V): map<K, V>
  {
    if xs == [] then map[]
    else
      var x := xs[|xs| - 1];
      var m := Register(xs[..|xs| - 1], key, val);
      if key(x).Some? then m[key(x).value := val(x)] else m
  }

  /** The view a log file defines: only `.jsonl` files define one. */
  function ViewOf(f: LogFile): Option<string>
  {
    if EndsWith(f.name, JSONL) then Some(ViewName(f.name)) else None
  }

  function Reconstruct(f: LogFile): seq<BookRow>
  {
    Orderbook(f.records)
  }

  /**
   * A character the SQL lexer accepts inside an unquoted identifier: an
   * ASCII letter or digit, `_`, `$`, or any non-ASCII character.
   */
  predicate IdentChar(c: char)
  {
    'a' <= c <= 'z' || 'A' <= c <= 'Z' || '0' <= c <= '9' || c == '_' || c == '$' || c >= '\U{80}'
  }

  /**
   * The statements of `load_all` accept the file: it is not a log, or its
   * table name, pasted unquoted after `raw_`, `snapshots_`, `deltas_` and
   * `orderbook_`, reads as one identifier. A dot, a space, a quote or any
   * other character makes the first statement raise.
   */
  predicate Loadable(f: LogFile)
  {
    EndsWith(f.name, JSONL) ==> forall i :: 0 <= i < |TableName(f.name)| ==> IdentChar(TableName(f.name)[i])
  }

  /** The position of the first file `load_all` cannot load, or the length of the listing. */
  function FirstFailure(files: seq<LogFile>): (k: nat)
    ensures k <= |files|
    ensures forall j :: 0 <= j < k ==> Loadable(files[j])
    ensures k < |files| ==> !Loadable(files[k])
  {
    if files == [] || !Loadable(files[0]) then 0
    else 1 + FirstFailure(files[1..])
  }

  /** What `load_all` leaves behind: the views it defined, and the file it raised on, if any. */
  datatype Loaded = Loaded(views: map<string, seq<BookRow>>, failed: Option<string>)

  /**
   * `load_all`: every `.jsonl` file, in listing order, (re)defines the view
   * named after it; `CREATE OR REPLACE` lets a later file win a name clash.
   * The first file the statements cannot take raises, which ends the loop:
   * the views defined before it remain and no later file is read.
   */
  function LoadAll(files: seq<LogFile>): (r: Loaded)
    ensures r.failed.None? <==> forall j :: 0 <= j < |files| ==> Loadable(files[j])
    ensures r.failed.Some? ==>
      exists k :: (0 <= k < |files| && files[k].name == r.failed.value && !Loadable(files[k])
        && forall j :: 0 <= j < k ==> Loadable(files[j]))
  {
    var k := FirstFailure(files);
    Loaded(Register(files[..k], ViewOf, Reconstruct), if k < |files| then Some(files[k].name) else None)
  }

  // ---------------------------------------------------------------------
  // Properties.
  // ---------------------------------------------------------------------

  lemma PositiveMembers(rows: seq<BookRow>, b: BookRow)
    ensures b in Positive(rows) <==> b in rows && b.currentQty > 0
  {
    FlatMapMembers(rows, (b: BookRow) => if b.currentQty > 0 then [b] else [], b);
  }

  lemma PositiveOnly(rows: seq<BookRow>)
    ensures forall b :: b in Positive(rows) ==> b.currentQty > 0
  {
    forall b | b in Positive(rows)
      ensures b.currentQty > 0
    {
      PositiveMembers(rows, b);
    }
  }

  lemma PairsWithMembers(d: SumRow, ss: seq<SnapRow>, b: BookRow)
    ensures b in PairsWith(d, ss) <==> exists j :: 0 <= j < |ss| && Matches(d, ss[j]) && b == Joined(d, ss[j])
  {
    FlatMapMembers(ss, s => if Matches(d, s) then [Joined(d, s)] else [], b);
  }

  lemma PairsWithEmpty(d: SumRow, ss: seq<SnapRow>)
    ensures PairsWith(d, ss) == [] <==> !HasMatch(d, ss)
  {
    if HasMatch(d, ss) {
      var j :| 0 <= j < |ss| && Matches(d, ss[j]);
      PairsWithMembers(d, ss, Joined(d, ss[j]));
    }
    if PairsWith(d, ss) != [] {
      PairsWithMembers(d, ss, PairsWith(d, ss)[0]);
    }
  }

  /** The join rows of one sum row: paired with every matching level, or alone when none matches. */
  lemma RowsOfSumMembers(d: SumRow, ss: seq<SnapRow>, b: BookRow)
    ensures b in RowsOfSum(d, ss) <==>
      (exists j :: 0 <= j < |ss| && Matches(d, ss[j]) && b == Joined(d, ss[j]))
      || (!HasMatch(d, ss) && b == DeltaOnly(d))
  {
    PairsWithMembers(d, ss, b);
    PairsWithEmpty(d, ss);
  }

  lemma {:induction false} FlatMapMembers<T, U>(xs: seq<T>, f: T -> seq<U>, y: U)
    ensures y in FlatMap(xs, f) <==> exists i :: 0 <= i < |xs| && y in f(xs[i])
    decreases |xs|
  {
    if xs != [] {
      var n := |xs| - 1;
      var init := xs[..n];
      FlatMapMembers(init, f, y);
      assert FlatMap(xs, f) == FlatMap(init, f) + f(xs[n]);
      if y in FlatMap(init, f) {
        var i :| 0 <= i < |init| && y in f(init[i]);
        assert init[i] == xs[i];
      }
      if exists i :: 0 <= i < |xs| && y in f(xs[i]) {
        var i :| 0 <= i < |xs| && y in f(xs[i]);
        if i < n {
          assert init[i] == xs[i];
        }
      }
    }
  }

  lemma LeftRowsMembers(ds: seq<SumRow>, ss: seq<SnapRow>, b: BookRow)
    ensures b in LeftRows(ds, ss) <==> exists i :: 0 <= i < |ds| && b in RowsOfSum(ds[i], ss)
  {
    FlatMapMembers(ds, d => RowsOfSum(d, ss), b);
  }

  lemma UnmatchedMembers(all: seq<SumRow>, ss: seq<SnapRow>, b: BookRow)
    ensures b in Unmatched(all, ss) <==> exists j :: 0 <= j < |ss| && !Matched(ss[j], all) && b == SnapshotOnly(ss[j])
  {
    FlatMapMembers(ss, s => if MatchedBy(s, all) then [] else [SnapshotOnly(s)], b);
  }

  /** A snapshot table row is one level of one side of one snapshot record, and every such level gives one. */
  lemma SnapshotLevelsMembers(rs: seq<Record>, x: SnapRow)
    ensures x in SnapshotLevels(rs) <==>
      exists i :: (0 <= i < |rs| && IsKind(rs[i], SNAPSHOT_TYPE)
        && x.marketTicker == MarketTicker(rs[i]) && x.snapSeq == rs[i].sequence
        && ((x.side == YES && Level(x.price, x.qty) in Unnest(rs[i].yes))
            || (x.side == NO && Level(x.price, x.qty) in Unnest(rs[i].no))))
  {
    FlatMapMembers(rs, r => SideLevels(r, YES), x);
    FlatMapMembers(rs, r => SideLevels(r, NO), x);
    forall r: Record, side: string | side == YES || side == NO
      ensures x in SideLevels(r, side) <==>
        IsKind(r, SNAPSHOT_TYPE) && x.marketTicker == MarketTicker(r) && x.snapSeq == r.sequence && x.side == side
          && Level(x.price, x.qty) in (if side == YES then Unnest(r.yes) else Unnest(r.no))
    {
      if IsKind(r, SNAPSHOT_TYPE) {
        var levels := if side == YES then Unnest(r.yes) else Unnest(r.no);
        if Level(x.price, x.qty) in levels && x.marketTicker == MarketTicker(r) && x.snapSeq == r.sequence && x.side == side {
          var k :| 0 <= k < |levels| && levels[k] == Level(x.price, x.qty);
          assert SideLevels(r, side)[k] == x;
        }
        if x in SideLevels(r, side) {
          var k :| 0 <= k < |levels| && SideLevels(r, side)[k] == x;
          assert levels[k] == Level(x.price, x.qty);
        }
      }
    }
  }

  /** Elements that give one row when `p` holds and none otherwise give `Count(xs, p)` rows in all. */
  lemma {:induction false} FlatMapCount<T, U>(xs: seq<T>, f: T -> seq<U>, p: T -> bool)
    requires forall x :: |f(x)| == if p(x) then 1 else 0
    ensures |FlatMap(xs, f)| == Count(xs, p)
    decreases |xs|
  {
    if xs != [] {
      FlatMapCount(xs[..|xs| - 1], f, p);
    }
  }

  /** `deltas_<table>` has one row per delta or snapshot record, tagged with that record's epoch. */
  lemma EventsMembers(rs: seq<Record>, e: EventRow)
    ensures |Events(rs)| == Count(rs, IsEvent)
    ensures e in Events(rs) <==>
      exists i :: (0 <= i < |rs| && IsEvent(rs[i])
        && e == EventRow(MarketTicker(rs[i]), rs[i].sequence, rs[i].side, rs[i].price, rs[i].delta,
                         Epoch(rs, MarketTicker(rs[i]), rs[i].sequence)))
  {
    FlatMapMembers(rs, r => if IsEvent(r) then [EventOf(rs, r)] else [], e);
    FlatMapCount(rs, r => if IsEvent(r) then [EventOf(rs, r)] else [], IsEvent);
  }

  /** `delta_sums` has one row per event with a delta, carrying that event's running sum. */
  lemma DeltaSumsMembers(es: seq<EventRow>, d: SumRow)
    ensures |DeltaSums(es)| == Count(es, HasDelta)
    ensures d in DeltaSums(es) <==>
      exists i :: (0 <= i < |es| && es[i].delta.Some?
        && d == SumRow(es[i].lastSnapSeq, es[i].side, es[i].price, es[i].sequence, CumDelta(es, es[i])))
  {
    FlatMapMembers(es, (e: EventRow) => if e.delta.Some? then [SumOf(es, e)] else [], d);
    FlatMapCount(es, (e: EventRow) => if e.delta.Some? then [SumOf(es, e)] else [], HasDelta);
  }

  /**
   * The view's rows are exactly the positive rows of the full outer join:
   * a running sum paired with a matching snapshot level (snapshot quantity
   * plus running sum), a running sum with no matching level (the sum alone),
   * or a snapshot level that no running sum matches (its own quantity).
   */
  lemma OrderbookMembers(rs: seq<Record>, b: BookRow)
    ensures var ds := DeltaSums(Events(rs)); var ss := SnapshotLevels(rs);
      b in Orderbook(rs) <==>
        b.currentQty > 0
        && ((exists i, j :: 0 <= i < |ds| && 0 <= j < |ss| && Matches(ds[i], ss[j]) && b == Joined(ds[i], ss[j]))
            || (exists i :: 0 <= i < |ds| && !HasMatch(ds[i], ss) && b == DeltaOnly(ds[i]))
            || (exists j :: 0 <= j < |ss| && !Matched(ss[j], ds) && b == SnapshotOnly(ss[j])))
  {
    var ds := DeltaSums(Events(rs));
    var ss := SnapshotLevels(rs);
    PositiveMembers(LeftRows(ds, ss) + Unmatched(ds, ss), b);
    LeftRowsMembers(ds, ss, b);
    UnmatchedMembers(ds, ss, b);
    if exists i :: 0 <= i < |ds| && b in RowsOfSum(ds[i], ss) {
      var i :| 0 <= i < |ds| && b in RowsOfSum(ds[i], ss);
      RowsOfSumMembers(ds[i], ss, b);
    }
    if exists i, j :: 0 <= i < |ds| && 0 <= j < |ss| && Matches(ds[i], ss[j]) && b == Joined(ds[i], ss[j]) {
      var i, j :| 0 <= i < |ds| && 0 <= j < |ss| && Matches(ds[i], ss[j]) && b == Joined(ds[i], ss[j]);
      RowsOfSumMembers(ds[i], ss, b);
    }
    if exists i :: 0 <= i < |ds| && !HasMatch(ds[i], ss) && b == DeltaOnly(ds[i]) {
      var i :| 0 <= i < |ds| && !HasMatch(ds[i], ss) && b == DeltaOnly(ds[i]);
      RowsOfSumMembers(ds[i], ss, b);
    }
  }

  /** `str.replace` leaves a string alone when the pattern's first character never occurs in it. */
  lemma {:induction false} ReplaceAllAbsent(s: string, pat: string, rep: string)
    requires pat != [] && pat[0] !in s
    ensures ReplaceAll(s, pat, rep) == s
    decreases |s|
  {
    if |s| >= |pat| {
      assert s[..|pat|][0] == s[0];
      ReplaceAllAbsent(s[1..], pat, rep);
      assert [s[0]] + s[1..] == s;
    }
  }

  /** A pattern occurring only as the suffix is replaced there and nowhere else. */
  lemma {:induction false} ReplaceAllSuffix(a: string, pat: string, rep: string)
    requires pat != [] && pat[0] !in a
    ensures ReplaceAll(a + pat, pat, rep) == a + rep
    decreases |a|
  {
    var s := a + pat;
    if a == [] {
      assert s == pat && s[|pat|..] == [];
    } else {
      assert s[..|pat|][0] == a[0];
      assert s[1..] == a[1..] + pat;
      ReplaceAllSuffix(a[1..], pat, rep);
      assert [a[0]] + (a[1..] + rep) == a + rep;
    }
  }

  /** Replacing one character by one character maps the string character by character. */
  lemma {:induction false} ReplaceAllChar(s: string, c: char, d: char)
    ensures |ReplaceAll(s, [c], [d])| == |s|
    ensures forall i :: 0 <= i < |s| ==> ReplaceAll(s, [c], [d])[i] == if s[i] == c then d else s[i]
    decreases |s|
  {
    if s != [] {
      ReplaceAllChar(s[1..], c, d);
      var r := ReplaceAll(s, [c], [d]);
      var tail := ReplaceAll(s[1..], [c], [d]);
      assert r == [if s[0] == c then d else s[0]] + tail by {
        assert s[..1] == [s[0]];
      }
      forall i | 1 <= i < |s|
        ensures r[i] == if s[i] == c then d else s[i]
      {
        assert r[i] == tail[i - 1] && s[1..][i - 1] == s[i];
      }
    }
  }

  /**
   * The view for a log file `stem.jsonl`, whose stem has no dot, is named
   * `orderbook_` followed by the stem, with every dash turned into an
   * underscore and every ASCII capital into its small letter.
   */
  lemma ViewNameOfStem(stem: string)
    requires '.' !in stem
    ensures TableName(stem + JSONL) == LowerAll(ReplaceAll(stem, "-", "_"))
    ensures |ViewName(stem + JSONL)| == |"orderbook_"| + |stem|
    ensures ViewName(stem + JSONL)[..|"orderbook_"|] == "orderbook_"
    ensures forall i :: 0 <= i < |stem| ==>
      ViewName(stem + JSONL)[|"orderbook_"| + i] == if stem[i] == '-' then '_' else Lower(stem[i])
  {
    ReplaceAllSuffix(stem, JSONL, "");
    assert stem + "" == stem;
    ReplaceAllChar(stem, '-', '_');
  }

  lemma {:induction false} RegisterKeys<T, K, V>(xs: seq<T>, key: T -> Option<K>, val: T -> V, k: K)
    ensures k in Register(xs, key, val) <==> exists i :: 0 <= i < |xs| && key(xs[i]) == Some(k)
    decreases |xs|
  {
    if xs != [] {
      var n := |xs| - 1;
      RegisterKeys(xs[..n], key, val, k);
      if exists i :: 0 <= i < |xs| && key(xs[i]) == Some(k) {
        var i :| 0 <= i < |xs| && key(xs[i]) == Some(k);
        if i < n {
          assert xs[..n][i] == xs[i];
        }
      }
    }
  }

  lemma {:induction false} RegisterLastWins<T, K, V>(xs: seq<T>, key: T -> Option<K>, val: T -> V, i: int, k: K)
    requires 0 <= i < |xs| && key(xs[i]) == Some(k)
    requires forall j :: i < j < |xs| ==> key(xs[j]) != Some(k)
    ensures k in Register(xs, key, val) && Register(xs, key, val)[k] == val(xs[i])
    decreases |xs|
  {
    var n := |xs| - 1;
    if i < n {
      var pre := xs[..n];
      forall j | i < j < n
        ensures key(pre[j]) != Some(k)
      {
        assert pre[j] == xs[j];
      }
      assert pre[i] == xs[i];
      RegisterLastWins(pre, key, val, i, k);
    }
  }

  lemma LowerMockTicker()
    ensures LowerAll("MOCK_TICKER") == "mock_ticker"
  {
    var s := "MOCK_TICKER";
    var r := LowerAll(s);
    forall i | 0 <= i < 11
      ensures r[i] == "mock_ticker"[i]
    {
      if i == 0 { assert s[0] == 'M'; }
      else if i == 1 { assert s[1] == 'O'; }
      else if i == 2 { assert s[2] == 'C'; }
      else if i == 3 { assert s[3] == 'K'; }
      else if i == 4 { assert s[4] == '_'; }
      else if i == 5 { assert s[5] == 'T'; }
      else if i == 6 { assert s[6] == 'I'; }
      else if i == 7 { assert s[7] == 'C'; }
      else if i == 8 { assert s[8] == 'K'; }
      else if i == 9 { assert s[9] == 'E'; }
      else { assert s[10] == 'R'; }
    }
  }

  /** The log file of the analyzer's test, `MOCK_TICKER.jsonl`, defines the view `orderbook_mock_ticker`. */
  lemma MockTickerTable(f: LogFile)
    requires f.name == "MOCK_TICKER.jsonl"
    ensures Loadable(f)
    ensures Defines(f, "orderbook_" + "mock_ticker")
  {
    var stem := "MOCK_TICKER";
    assert stem + JSONL == f.name;
    assert EndsWith(f.name, JSONL) by {
      assert f.name[|f.name| - |JSONL|..] == JSONL;
    }
    assert '.' !in stem && '-' !in stem by {
      assert forall i :: 0 <= i < |stem| ==> 'A' <= stem[i] <= 'Z' || stem[i] == '_';
    }
    ViewNameOfStem(stem);
    ReplaceAllAbsent(stem, "-", "_");
    LowerMockTicker();
    MockTickerChars();
    StemLoadable(f, stem);
  }

  lemma MockTickerChars()
    ensures forall i :: 0 <= i < |"MOCK_TICKER"| ==> IdentChar("MOCK_TICKER"[i])
  {
    var stem := "MOCK_TICKER";
    forall i | 0 <= i < |stem|
      ensures IdentChar(stem[i])
    {
      assert 'A' <= stem[i] <= 'Z' || stem[i] == '_';
    }
  }

  /** A log whose stem holds only identifier characters and dashes, and no dot, can be loaded. */
  lemma StemLoadable(f: LogFile, stem: string)
    requires f.name == stem + JSONL && '.' !in stem
    requires forall i :: 0 <= i < |stem| ==> IdentChar(stem[i]) || stem[i] == '-'
    ensures Loadable(f)
  {
    ViewNameOfStem(stem);
    var t := TableName(f.name);
    assert ViewName(f.name) == "orderbook_" + t;
    assert |t| == |stem|;
    forall i | 0 <= i < |t|
      ensures IdentChar(t[i])
    {
      assert t[i] == ViewName(f.name)[|"orderbook_"| + i];
      assert t[i] == if stem[i] == '-' then '_' else Lower(stem[i]);
    }
  }

  /** File `f` (re)defines view `v`. */
  predicate Defines(f: LogFile, v: string)
  {
    EndsWith(f.name, JSONL) && ViewName(f.name) == v
  }

  /** `load_all` reaches `files[i]` and loads it: neither it nor any file before it raises. */
  predicate Reached(files: seq<LogFile>, i: int)
  {
    0 <= i < |files| && forall j :: 0 <= j <= i ==> Loadable(files[j])
  }

  /** The files `load_all` loads are exactly those before the first failure. */
  lemma ReachedBeforeFailure(files: seq<LogFile>, i: int)
    requires 0 <= i < |files|
    ensures Reached(files, i) <==> i < FirstFailure(files)
  {
  }

  /** A view is defined exactly when a file that was reached, before any failure, is named after it. */
  lemma LoadAllKeys(files: seq<LogFile>, v: string)
    ensures v in LoadAll(files).views <==> exists i :: Reached(files, i) && Defines(files[i], v)
  {
    var k := FirstFailure(files);
    var loaded := files[..k];
    RegisterKeys(loaded, ViewOf, Reconstruct, v);
    forall i | 0 <= i < |files|
      ensures Reached(files, i) <==> i < k
    {
      ReachedBeforeFailure(files, i);
    }
    assert forall i :: 0 <= i < k ==> loaded[i] == files[i];
    assert forall i :: 0 <= i < k ==> (ViewOf(loaded[i]) == Some(v) <==> Defines(loaded[i], v));
  }

  /**
   * A name clash is won by the last file that defines the name among those
   * `load_all` reached: the view holds that file's reconstruction.
   */
  lemma LoadAllLastWins(files: seq<LogFile>, i: int, v: string)
    requires Reached(files, i) && Defines(files[i], v)
    requires forall j :: i < j < |files| && Reached(files, j) ==> !Defines(files[j], v)
    ensures v in LoadAll(files).views && LoadAll(files).views[v] == Orderbook(files[i].records)
  {
    var k := FirstFailure(files);
    var loaded := files[..k];
    ReachedBeforeFailure(files, i);
    forall j | i < j < k
      ensures ViewOf(loaded[j]) != Some(v)
    {
      ReachedBeforeFailure(files, j);
      assert loaded[j] == files[j];
    }
    assert loaded[i] == files[i];
    RegisterLastWins(loaded, ViewOf, Reconstruct, i, v);
  }

  // ---------------------------------------------------------------------
  // Running sums.
  // ---------------------------------------------------------------------

  /** The running sum over a longer event table adds the sums over its two parts. */
  lemma {:induction false} CumDeltaAppend(a: seq<EventRow>, b: seq<EventRow>, e: EventRow)
    ensures CumDelta(a + b, e) == CumDelta(a, e) + CumDelta(b, e)
    decreases |b|
  {
    if b == [] {
      assert a + b == a;
    } else {
      var n := |b| - 1;
      assert (a + b)[..|a + b| - 1] == a + b[..n];
      assert (a + b)[|a + b| - 1] == b[n];
      CumDeltaAppend(a, b[..n], e);
    }
  }

  /** Events outside `e`'s frame, or without a delta, contribute nothing to its running sum. */
  lemma {:induction false} CumDeltaOutside(es: seq<EventRow>, e: EventRow)
    requires forall i :: 0 <= i < |es| && es[i].delta.Some? ==> !InFrame(es[i], e)
    ensures CumDelta(es, e) == 0
    decreases |es|
  {
    if es != [] {
      var n := |es| - 1;
      forall i | 0 <= i < n && es[..n][i].delta.Some?
        ensures !InFrame(es[..n][i], e)
      {
        assert es[..n][i] == es[i];
      }
      CumDeltaOutside(es[..n], e);
    }
  }

  /**
   * A snapshot restarts the running sums: the deltas of earlier epochs do
   * not count towards the running sum of an event of a later one.
   */
  lemma CumDeltaRestart(earlier: seq<EventRow>, later: seq<EventRow>, e: EventRow)
    requires forall i :: 0 <= i < |earlier| ==> earlier[i].lastSnapSeq != e.lastSnapSeq
    ensures CumDelta(earlier + later, e) == CumDelta(later, e)
  {
    CumDeltaAppend(earlier, later, e);
    CumDeltaOutside(earlier, e);
  }

  // ---------------------------------------------------------------------
  // A snapshot followed by one delta.
  // ---------------------------------------------------------------------

  lemma FlatMapSingle<T, U>(a: T, f: T -> seq<U>)
    ensures FlatMap([a], f) == f(a)
  {
    assert [a][..0] == [];
    assert [] + f(a) == f(a);
  }

  lemma FlatMapPair<T, U>(a: T, b: T, f: T -> seq<U>)
    ensures FlatMap([a, b], f) == f(a) + f(b)
  {
    FlatMapSingle(a, f);
    assert [a, b][..1] == [a];
  }

  /** The running sums of the log `[snap, upd]`: one row, for the delta, in the snapshot's epoch. */
  lemma PairSums(snap: Record, upd: Record)
    requires IsKind(snap, SNAPSHOT_TYPE) && snap.sequence.Some? && snap.delta.None?
    requires IsKind(upd, DELTA_TYPE) && upd.sequence.Some? && snap.sequence.value < upd.sequence.value
    requires MarketTicker(upd) == MarketTicker(snap) && upd.delta.Some?
    ensures DeltaSums(Events([snap, upd])) == [SumRow(snap.sequence, upd.side, upd.price, upd.sequence, upd.delta.value)]
  {
    var rs := [snap, upd];
    var t := MarketTicker(snap);
    assert Epoch(rs, t, upd.sequence) == snap.sequence by {
      assert Opens(rs[0], t, upd.sequence);
      assert !Opens(rs[1], t, upd.sequence);
    }
    var evSnap := EventOf(rs, snap);
    var evUpd := EventOf(rs, upd);
    FlatMapPair(snap, upd, r => if IsEvent(r) then [EventOf(rs, r)] else []);
    var es := Events(rs);
    assert es == [evSnap, evUpd];
    assert CumDelta(es, evUpd) == upd.delta.value by {
      assert es[..1] == [evSnap];
      assert CumDelta([evSnap], evUpd) == 0 by {
        assert [evSnap][..0] == [];
      }
      assert InFrame(evUpd, evUpd);
    }
    FlatMapPair(evSnap, evUpd, (e: EventRow) => if e.delta.Some? then [SumOf(es, e)] else []);
  }

  /** The snapshot table of a log whose only snapshot is `snap`, with one level per side. */
  lemma PairLevels(snap: Record, upd: Record, p: int, q: int, p2: int, q2: int)
    requires IsKind(snap, SNAPSHOT_TYPE) && !IsKind(upd, SNAPSHOT_TYPE)
    requires snap.yes == Some([Level(p, q)]) && snap.no == Some([Level(p2, q2)])
    ensures SnapshotLevels([snap, upd]) ==
      [SnapRow(MarketTicker(snap), snap.sequence, YES, p, q), SnapRow(MarketTicker(snap), snap.sequence, NO, p2, q2)]
  {
    FlatMapPair(snap, upd, r => SideLevels(r, YES));
    FlatMapPair(snap, upd, r => SideLevels(r, NO));
  }

  /** The outer join of one running sum with two levels, of which it matches the first only. */
  lemma JoinFirstOfTwo(d: SumRow, s1: SnapRow, s2: SnapRow)
    requires Matches(d, s1) && !Matches(d, s2)
    ensures LeftRows([d], [s1, s2]) == [Joined(d, s1)]
    ensures Unmatched([d], [s1, s2]) == [SnapshotOnly(s2)]
  {
    FlatMapPair(s1, s2, s => if Matches(d, s) then [Joined(d, s)] else []);
    assert RowsOfSum(d, [s1, s2]) == [Joined(d, s1)];
    FlatMapSingle(d, d' => RowsOfSum(d', [s1, s2]));
    assert MatchedBy(s1, [d]) && !MatchedBy(s2, [d]);
    FlatMapPair(s1, s2, s => if MatchedBy(s, [d]) then [] else [SnapshotOnly(s)]);
  }

  lemma PositivePair(a: BookRow, b: BookRow)
    requires a.currentQty > 0 && b.currentQty > 0
    ensures Positive([a, b]) == [a, b]
  {
    FlatMapPair(a, b, (x: BookRow) => if x.currentQty > 0 then [x] else []);
  }

  /** The book of one running sum and two levels it splits between the join and the snapshot side. */
  lemma JoinTwoPositive(d: SumRow, s1: SnapRow, s2: SnapRow)
    requires Matches(d, s1) && !Matches(d, s2)
    requires s1.qty + d.cumDelta > 0 && s2.qty > 0
    ensures Positive(LeftRows([d], [s1, s2]) + Unmatched([d], [s1, s2])) == [Joined(d, s1), SnapshotOnly(s2)]
  {
    JoinFirstOfTwo(d, s1, s2);
    assert LeftRows([d], [s1, s2]) + Unmatched([d], [s1, s2]) == [Joined(d, s1), SnapshotOnly(s2)];
    PositivePair(Joined(d, s1), SnapshotOnly(s2));
  }

  /**
   * A log holding one snapshot (one yes level and one no level) and then one
   * delta on the yes level: the yes level shows the snapshot quantity plus
   * the delta at the delta's seq, and the untouched no level keeps its
   * snapshot quantity.
   */
  lemma SnapshotThenDelta(snap: Record, upd: Record, p: int, q: int, p2: int, q2: int, dq: int)
    requires IsKind(snap, SNAPSHOT_TYPE) && snap.sequence.Some? && snap.delta.None?
    requires snap.yes == Some([Level(p, q)]) && snap.no == Some([Level(p2, q2)])
    requires IsKind(upd, DELTA_TYPE) && upd.sequence.Some? && snap.sequence.value < upd.sequence.value
    requires MarketTicker(upd) == MarketTicker(snap)
    requires upd.side == Some(YES) && upd.price == Some(p) && upd.delta == Some(dq)
    requires q + dq > 0 && q2 > 0
    ensures Orderbook([snap, upd]) ==
      [BookRow(upd.sequence, Some(YES), Some(p), q + dq), BookRow(snap.sequence, Some(NO), Some(p2), q2)]
  {
    var t := MarketTicker(snap);
    var d := SumRow(snap.sequence, Some(YES), Some(p), upd.sequence, dq);
    PairSums(snap, upd);
    var yesRow := SnapRow(t, snap.sequence, YES, p, q);
    var noRow := SnapRow(t, snap.sequence, NO, p2, q2);
    KindsDiffer();
    PairLevels(snap, upd, p, q, p2, q2);
    JoinTwoPositive(d, yesRow, noRow);
  }
}
