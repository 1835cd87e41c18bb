/**
 * One streaming session (`src/ingestor.rs`): the opening subscribe command,
 * then a fold over the inbound frames that keeps a per-ticker table of the
 * last accepted delta sequence number, detects gaps, sends the targeted
 * unsubscribe/resubscribe pair and decides which messages are forwarded to
 * the persistence channel.
 *
 * The network is abstracted away: frames arrive as a sequence and the
 * commands written to the socket are returned as a sequence.
 */
module Ingestor {
  import opened Wrappers
  import opened Messages

  const DELTA_CHANNEL: string := "orderbook_delta"
  const TICKER_CHANNEL: string := "ticker"

  /** The outbound JSON command `{id, cmd, params: {channels?, market_tickers}}`. */
  datatype Command = Command(id: nat, cmd: string, channels: Option<seq<string>>, marketTickers: seq<string>)

  /** An inbound websocket frame: either not decodable as JSON text, or a decoded message. */
  datatype Frame = Undecodable | Decoded(msg: Message)

  /** Ticker to last accepted sequence number; 0 (or no entry) means "cold". */
  type SeqTable = map<string, U64>

  /** The tracked value of a ticker, with an absent entry reading as the sentinel 0. */
  function Last(table: SeqTable, t: string): U64
  {
    if t in table then table[t] else 0
  }

  /** The subscribe command sent once when the session opens. */
  function Opening(batch: seq<string>): Command
  {
    Command(1, "subscribe", Some([DELTA_CHANNEL, TICKER_CHANNEL]), batch)
  }

  /** The two commands sent, in order, when a gap is detected on ticker `t`. */
  function Resubscribe(t: string): seq<Command>
  {
    [Command(10, "unsubscribe", None, [t]), Command(11, "subscribe", Some([DELTA_CHANNEL]), [t])]
  }

  /** A decoded frame whose `msg.market_ticker` is a string; the others are dropped. */
  predicate Routable(f: Frame)
  {
    f.Decoded? && f.msg.marketTicker.Some?
  }

  /** A routable frame whose `type` is `"orderbook_delta"`: the only kind whose seq is checked. */
  predicate IsDelta(f: Frame)
  {
    Routable(f) && f.msg.kind == Some(DELTA_CHANNEL)
  }

  predicate IsDeltaFor(f: Frame, t: string)
  {
    IsDelta(f) && f.msg.marketTicker.value == t
  }

  /** The frame's sequence number; a missing or non-u64 `seq` reads as 0. */
  function SeqOf(m: Message): U64
  {
    match m.sequence
    case Some(s) => s
    case None => 0
  }

  /** Tracking is warm and the incoming number is not the successor. */
  predicate IsGap(last: U64, s: U64)
  {
    last != 0 && s != last + 1
  }

  datatype StepResult = StepResult(table: SeqTable, commands: seq<Command>, forward: Option<Message>)

  /** Handling of one inbound frame. */
  function Step(table: SeqTable, f: Frame): (r: StepResult)
    // dropped frames: nothing forwarded, nothing sent, table untouched
    ensures !Routable(f) ==> r == StepResult(table, [], None)
    // non-delta kinds pass through without sequence checking
    ensures Routable(f) && !IsDelta(f) ==> r == StepResult(table, [], Some(f.msg))
    // a delta is forwarded exactly when it is not a gap, and then becomes the new baseline
    ensures IsDelta(f) ==>
      var t, s := f.msg.marketTicker.value, SeqOf(f.msg);
      && (r.forward.Some? <==> !IsGap(Last(table, t), s))
      && (r.forward.Some? ==> r.forward == Some(f.msg) && r.commands == [] && r.table == table[t := s])
      && (r.forward.None? ==> r.commands == Resubscribe(t) && r.table == table[t := 0])
    // a forwarded message is the input message, unchanged
    ensures r.forward.Some? ==> f == Decoded(r.forward.value)
    // only the frame's own ticker entry can change
    ensures forall u {:trigger Last(r.table, u)} :: !IsDeltaFor(f, u) ==> Last(r.table, u) == Last(table, u)
  {
    match f
    case Undecodable => StepResult(table, [], None)
    case Decoded(m) =>
      match m.marketTicker
      case None => StepResult(table, [], None)
      case Some(t) =>
        if m.kind != Some(DELTA_CHANNEL) then StepResult(table, [], Some(m))
        else
          var s := SeqOf(m);
          if IsGap(Last(table, t), s) then StepResult(table[t := 0], Resubscribe(t), None)
          else StepResult(table[t := s], [], Some(m))
  }

  datatype RunResult = RunResult(table: SeqTable, commands: seq<Command>, forwarded: seq<Message>)

  /** The stream loop: `Step` folded over the frames, in arrival order. */
  function Run(table: SeqTable, frames: seq<Frame>): (r: RunResult)
    decreases |frames|
    ensures |r.forwarded| <= |frames|
    ensures forall m :: m in r.forwarded ==> Decoded(m) in frames && m.marketTicker.Some?
    ensures forall c :: c in r.commands ==> |c.marketTickers| == 1 && (c.id == 10 || c.id == 11)
  {
    if frames == [] then RunResult(table, [], [])
    else
      var prev := Run(table, frames[..|frames| - 1]);
      var s := Step(prev.table, frames[|frames| - 1]);
      RunResult(s.table, prev.commands + s.commands, prev.forwarded + ToSeq(s.forward))
  }

  /** A whole session: the opening subscribe for the batch, then the stream loop from an empty table. */
  function Session(batch: seq<string>, frames: seq<Frame>): (r: RunResult)
    ensures |r.commands| >= 1
    ensures r.commands[0] == Command(1, "subscribe", Some(["orderbook_delta", "ticker"]), batch)
    ensures r.commands[1..] == Run(map[], frames).commands
    ensures forall i :: 1 <= i < |r.commands| ==> |r.commands[i].marketTickers| == 1
    ensures forall m :: m in r.forwarded ==> Decoded(m) in frames
  {
    var run := Run(map[], frames);
    RunResult(run.table, [Opening(batch)] + run.commands, run.forwarded)
  }

  // ---------------------------------------------------------------------
  // Run-level properties, stated over positions in the frame sequence.
  // ---------------------------------------------------------------------

  /** The table in force just before frame `k` is handled. */
  function TableBefore(frames: seq<Frame>, k: nat): SeqTable
    requires k <= |frames|
  {
    Run(map[], frames[..k]).table
  }

  /** What handling frame `k` does. */
  function StepAt(frames: seq<Frame>, k: nat): StepResult
    requires k < |frames|
  {
    Step(TableBefore(frames, k), frames[k])
  }

  lemma {:induction false} TableAfterStep(frames: seq<Frame>, k: nat)
    requires k < |frames|
    ensures TableBefore(frames, k + 1) == StepAt(frames, k).table
  {
    assert frames[..k + 1][..k] == frames[..k];
    assert frames[..k + 1][k] == frames[k];
  }

  /** Frames that are not deltas of `t` leave `t`'s entry alone. */
  lemma {:induction false} LastUnchangedBetween(frames: seq<Frame>, t: string, i: nat, j: nat)
    requires i <= j <= |frames|
    requires forall k :: i <= k < j ==> !IsDeltaFor(frames[k], t)
    ensures Last(TableBefore(frames, j), t) == Last(TableBefore(frames, i), t)
    decreases j - i
  {
    if i < j {
      LastUnchangedBetween(frames, t, i, j - 1);
      TableAfterStep(frames, j - 1);
    }
  }

  /**
   * Contiguity: two consecutive deltas of one ticker that are both forwarded,
   * the first with a non-zero sequence number, are numbered `s` and `s + 1`.
   */
  lemma {:induction false} ForwardedDeltasAreContiguous(frames: seq<Frame>, t: string, i: nat, j: nat)
    requires i < j < |frames|
    requires IsDeltaFor(frames[i], t) && IsDeltaFor(frames[j], t)
    requires forall k :: i < k < j ==> !IsDeltaFor(frames[k], t)
    requires StepAt(frames, i).forward.Some? && StepAt(frames, j).forward.Some?
    requires SeqOf(frames[i].msg) != 0
    ensures SeqOf(frames[j].msg) == SeqOf(frames[i].msg) + 1
  {
    TableAfterStep(frames, i);
    LastUnchangedBetween(frames, t, i + 1, j);
    assert Last(TableBefore(frames, j), t) == SeqOf(frames[i].msg);
  }

  /**
   * Gap recovery: a delta of `t` that is not forwarded sends exactly the
   * unsubscribe/resubscribe pair for `t`, and the next delta of `t`, whatever
   * its sequence number, is forwarded.
   */
  lemma {:induction false} GapThenBaseline(frames: seq<Frame>, t: string, i: nat, j: nat)
    requires i < j < |frames|
    requires IsDeltaFor(frames[i], t) && IsDeltaFor(frames[j], t)
    requires forall k :: i < k < j ==> !IsDeltaFor(frames[k], t)
    requires StepAt(frames, i).forward.None?
    ensures StepAt(frames, i).commands == Resubscribe(t)
    ensures StepAt(frames, j).forward == Some(frames[j].msg)
    ensures StepAt(frames, j).commands == []
  {
    TableAfterStep(frames, i);
    LastUnchangedBetween(frames, t, i + 1, j);
    assert Last(TableBefore(frames, j), t) == 0;
  }

  // ---------------------------------------------------------------------
  // Per-ticker independence: a ticker's entry is a function of its own deltas.
  // ---------------------------------------------------------------------

  /** The sequence numbers of the deltas of `t`, in arrival order. */
  function DeltaSeqs(frames: seq<Frame>, t: string): seq<U64>
    decreases |frames|
  {
    if frames == [] then []
    else
      var f := frames[|frames| - 1];
      DeltaSeqs(frames[..|frames| - 1], t) + (if IsDeltaFor(f, t) then [SeqOf(f.msg)] else [])
  }

  /** The tracker of a single ticker fed only its own sequence numbers. */
  function TickerLast(ss: seq<U64>): U64
    decreases |ss|
  {
    if ss == [] then 0
    else
      var last := TickerLast(ss[..|ss| - 1]);
      var s := ss[|ss| - 1];
      if IsGap(last, s) then 0 else s
  }

  /**
   * The connection-wide table agrees, for every ticker, with a tracker that
   * sees only that ticker's deltas: batch-mates never influence each other.
   */
  lemma {:induction false} TableIsPerTicker(frames: seq<Frame>, t: string)
    ensures Last(Run(map[], frames).table, t) == TickerLast(DeltaSeqs(frames, t))
    decreases |frames|
  {
    if frames != [] {
      var n := |frames| - 1;
      var prefix := frames[..n];
      TableIsPerTicker(prefix, t);
      var ds := DeltaSeqs(prefix, t);
      if IsDeltaFor(frames[n], t) {
        assert DeltaSeqs(frames, t) == ds + [SeqOf(frames[n].msg)];
        assert (ds + [SeqOf(frames[n].msg)])[..|ds|] == ds;
      } else {
        assert DeltaSeqs(frames, t) == ds;
      }
    }
  }

  /** The scenario of a warm ticker at 5 receiving 8, then any number. */
  lemma GapScenario(t: string, body: string, next: U64)
    ensures
      var delta8 := Decoded(Message(None, Some(t), Some("orderbook_delta"), Some(8), body));
      var r := Step(map[t := 5], delta8);
      && r.forward.None?
      && r.commands == [Command(10, "unsubscribe", None, [t]),
                        Command(11, "subscribe", Some(["orderbook_delta"]), [t])]
      && Last(r.table, t) == 0
      && Step(r.table, Decoded(Message(None, Some(t), Some("orderbook_delta"), Some(next), body))).forward.Some?
  {
  }
}
