/**
 * The persistence worker (`src/ingestor/logger.rs`): a single consumer that
 * routes each received message to a per-key append-only writer, creating
 * writers lazily, and flushes every writer whenever the channel is empty
 * after a message has been handled.
 *
 * A writer is modelled as the lines written to it and the prefix of those
 * lines that has been flushed to the file. The outcome of serialising a
 * message and the channel's emptiness after it are inputs of each step.
 */
module Logger {
  import opened Wrappers
  import opened Messages

  const FALLBACK_KEY: string := "unknown"
  const LOG_DIR_PREFIX: string := "logs/"
  const LOG_SUFFIX: string := ".jsonl"

  datatype Writer = Writer(path: string, written: seq<string>, flushed: seq<string>)

  type Writers = map<string, Writer>

  /** One message taken off the channel, with its serialisation and whether the channel is empty afterwards. */
  datatype Received = Received(msg: Message, line: Option<string>, emptyAfter: bool)

  /** Which log a message belongs to: top-level `ticker`, else `msg.market_ticker`, else the catch-all. */
  function RouteKey(m: Message): (k: string)
    ensures m.ticker.Some? ==> k == m.ticker.value
    ensures m.ticker.None? && m.marketTicker.Some? ==> k == m.marketTicker.value
    ensures m.ticker.None? && m.marketTicker.None? ==> k == FALLBACK_KEY
  {
    match m.ticker
    case Some(t) => t
    case None =>
      match m.marketTicker
      case Some(t) => t
      case None => FALLBACK_KEY
  }

  /** The file a key's writer appends to. */
  function LogPath(k: string): (p: string)
    ensures |p| == |k| + |LOG_DIR_PREFIX| + |LOG_SUFFIX|
    ensures p[|LOG_DIR_PREFIX|..|LOG_DIR_PREFIX| + |k|] == k
  {
    LOG_DIR_PREFIX + k + LOG_SUFFIX
  }

  /** Distinct keys give distinct path strings. */
  lemma LogPathInjective(k1: string, k2: string)
    requires LogPath(k1) == LogPath(k2)
    ensures k1 == k2
  {
    var p := LogPath(k1);
    assert k1 == p[5..5 + |k1|];
    assert k2 == p[5..5 + |k2|];
  }

  /** A writer table the worker can be in: each writer on its key's file, flushed content a prefix of written content. */
  ghost predicate Valid(ws: Writers)
  {
    forall k :: k in ws ==> ws[k].path == LogPath(k) && ws[k].flushed <= ws[k].written
  }

  /** Everything written so far reaches the file. */
  function FlushAll(ws: Writers): (ws': Writers)
    ensures ws'.Keys == ws.Keys
    ensures forall k :: k in ws' ==>
      ws'[k].flushed == ws'[k].written && ws'[k].written == ws[k].written && ws'[k].path == ws[k].path
  {
    map k | k in ws :: ws[k].(flushed := ws[k].written)
  }

  /** The lines written so far for a key; none before its writer exists. */
  function Written(ws: Writers, k: string): seq<string>
  {
    if k in ws then ws[k].written else []
  }

  /** Handling of one received message. */
  function Handle(ws: Writers, r: Received): (ws': Writers)
    ensures Valid(ws) ==> Valid(ws')
    // the writer set grows by the message's key, and only by it
    ensures ws'.Keys == ws.Keys + {RouteKey(r.msg)}
    // one serialised line is appended to the message's key, nothing if serialisation failed
    ensures Written(ws', RouteKey(r.msg)) == Written(ws, RouteKey(r.msg)) + ToSeq(r.line)
    // every other writer keeps its content
    ensures forall k :: k in ws && k != RouteKey(r.msg) ==> ws'[k].written == ws[k].written
    // flush policy: everything reaches the files when the channel is empty, nothing flushes otherwise
    ensures r.emptyAfter ==> forall k :: k in ws' ==> ws'[k].flushed == ws'[k].written
    ensures !r.emptyAfter ==> forall k :: k in ws ==> ws'[k].flushed == ws[k].flushed
  {
    var appended := Append(ws, RouteKey(r.msg), r.line);
    if r.emptyAfter then FlushAll(appended) else appended
  }

  /** The writer for `k`, opened on first use, buffers `line` if there is one. */
  function Append(ws: Writers, k: string, line: Option<string>): (ws': Writers)
    ensures Valid(ws) ==> Valid(ws')
    ensures ws'.Keys == ws.Keys + {k}
    ensures Written(ws', k) == Written(ws, k) + ToSeq(line)
    ensures forall j :: j in ws && j != k ==> ws'[j] == ws[j]
    ensures k in ws ==> ws'[k].flushed == ws[k].flushed
  {
    var w := if k in ws then ws[k] else Writer(LogPath(k), [], []);
    ws[k := w.(written := w.written + ToSeq(line))]
  }

  /** The worker loop over the messages received so far, starting with no writers. */
  function Drain(items: seq<Received>): (ws: Writers)
    decreases |items|
    ensures Valid(ws)
    ensures ws.Keys == KeysSeen(items)
  {
    if items == [] then map[]
    else
      var prev := Drain(items[..|items| - 1]);
      KeysSeenExtend(items);
      Handle(prev, items[|items| - 1])
  }

  /** The routing keys of the messages received so far. */
  function KeysSeen(items: seq<Received>): set<string>
  {
    set i | 0 <= i < |items| :: RouteKey(items[i].msg)
  }

  lemma KeysSeenExtend(items: seq<Received>)
    requires items != []
    ensures KeysSeen(items) == KeysSeen(items[..|items| - 1]) + {RouteKey(items[|items| - 1].msg)}
  {
    var prefix := items[..|items| - 1];
    assert forall i :: 0 <= i < |prefix| ==> prefix[i] == items[i];
  }

  /** Closing the channel ends the loop; dropping the buffered writers flushes them. */
  function Close(items: seq<Received>): (ws: Writers)
    ensures Valid(ws)
    ensures forall k :: k in ws ==> ws[k].flushed == ws[k].written
    ensures ws.Keys == Drain(items).Keys
  {
    FlushAll(Drain(items))
  }

  /** Reference definition: the serialised lines of the messages routed to `k`, in receiving order. */
  function LinesFor(items: seq<Received>, k: string): seq<string>
    decreases |items|
  {
    if items == [] then []
    else
      var last := items[|items| - 1];
      LinesFor(items[..|items| - 1], k) + (if RouteKey(last.msg) == k then ToSeq(last.line) else [])
  }

  /**
   * Each key's log holds exactly the lines of the messages routed to it, in
   * the order they were received; messages that failed to serialise are
   * skipped without affecting later ones.
   */
  lemma {:induction false} DrainWritesLinesInOrder(items: seq<Received>, k: string)
    ensures Written(Drain(items), k) == LinesFor(items, k)
    decreases |items|
  {
    if items != [] {
      DrainWritesLinesInOrder(items[..|items| - 1], k);
    }
  }

  /** The files are up to date whenever the last message left the channel empty. */
  lemma {:induction false} FlushedWhenChannelEmpty(items: seq<Received>)
    requires items != [] && items[|items| - 1].emptyAfter
    ensures forall k :: k in Drain(items) ==> Drain(items)[k].flushed == LinesFor(items, k)
  {
    var ws := Drain(items);
    forall k | k in ws
      ensures ws[k].flushed == LinesFor(items, k)
    {
      DrainWritesLinesInOrder(items, k);
    }
  }

  /** Flushed content only ever grows: handling a message extends every writer's flushed prefix. */
  lemma FlushedOnlyGrows(ws: Writers, r: Received, k: string)
    requires Valid(ws) && k in ws
    ensures ws[k].flushed <= Handle(ws, r)[k].flushed
  {
  }
}
