/**
 * Process start-up (`src/main.rs`): the ticker list is read from a text
 * file, each line trimmed and blank lines dropped; the list is cut into
 * batches of at most 20 and one session is started per batch, all feeding
 * the one persistence worker.
 */
module Main {
  import opened Wrappers
  import opened Messages
  import Ingestor
  import Logger

  const BATCH_SIZE: nat := 20

  // ---------------------------------------------------------------------
  // Text: Rust's `str::lines` and `str::trim`.
  // ---------------------------------------------------------------------

  /** The code points with the Unicode White_Space property, which Rust's `char::is_whitespace` tests. */
  const WHITE_SPACE: set<int> := {
    0x09, 0x0A, 0x0B, 0x0C, 0x0D, 0x20, 0x85, 0xA0, 0x1680,
    0x2000, 0x2001, 0x2002, 0x2003, 0x2004, 0x2005, 0x2006, 0x2007, 0x2008, 0x2009, 0x200A,
    0x2028, 0x2029, 0x202F, 0x205F, 0x3000}

  predicate IsWhitespace(c: char)
  {
    c as int in WHITE_SPACE
  }

  predicate AllWhitespace(s: string)
  {
    forall i :: 0 <= i < |s| ==> IsWhitespace(s[i])
  }

  /** The first position at or after `k` that does not hold whitespace. */
  function SkipForward(s: string, k: nat): (r: nat)
    requires k <= |s|
    decreases |s| - k
    ensures k <= r <= |s|
    ensures forall m :: k <= m < r ==> IsWhitespace(s[m])
    ensures r < |s| ==> !IsWhitespace(s[r])
  {
    if k < |s| && IsWhitespace(s[k]) then SkipForward(s, k + 1) else k
  }

  /** The end of `s[lo..j]` once its trailing whitespace is dropped. */
  function SkipBackward(s: string, lo: nat, j: nat): (r: nat)
    requires lo <= j <= |s|
    decreases j
    ensures lo <= r <= j
    ensures forall m :: r <= m < j ==> IsWhitespace(s[m])
    ensures r > lo ==> !IsWhitespace(s[r - 1])
  {
    if j > lo && IsWhitespace(s[j - 1]) then SkipBackward(s, lo, j - 1) else j
  }

  /**
   * `t` is `s` with its leading and trailing whitespace removed: the piece of
   * `s` starting at `i`, with only whitespace around it and none at its ends.
   */
  ghost predicate IsTrimOf(s: string, t: string, i: nat)
  {
    && i + |t| <= |s| && t == s[i..i + |t|]
    && (forall m :: 0 <= m < i ==> IsWhitespace(s[m]))
    && (forall m :: i + |t| <= m < |s| ==> IsWhitespace(s[m]))
    && (t == [] || (!IsWhitespace(t[0]) && !IsWhitespace(t[|t| - 1])))
  }

  /** Where the trimmed text starts. */
  function TrimFrom(s: string): (i: nat)
    ensures i <= |s|
  {
    SkipForward(s, 0)
  }

  /** `str::trim`: the text with leading and trailing whitespace removed. */
  function Trim(s: string): (t: string)
    ensures t == [] || (!IsWhitespace(t[0]) && !IsWhitespace(t[|t| - 1]))
    ensures t == [] <==> AllWhitespace(s)
  {
    var i := TrimFrom(s);
    var j := SkipBackward(s, i, |s|);
    assert s[i..j] != [] ==> s[i..j][0] == s[i];
    s[i..j]
  }

  /** What `trim` removes is whitespace, and what it keeps is one contiguous piece of the text. */
  lemma TrimIsTrimOf(s: string)
    ensures IsTrimOf(s, Trim(s), TrimFrom(s))
  {
    var j := SkipBackward(s, TrimFrom(s), |s|);
  }

  /** Only one text fits that description, so `trim` is pinned down by it. */
  lemma TrimUnique(s: string, t1: string, i1: nat, t2: string, i2: nat)
    requires IsTrimOf(s, t1, i1) && IsTrimOf(s, t2, i2)
    ensures t1 == t2
  {
    if t1 != [] && t2 != [] {
      assert i1 == i2 by {
        assert s[i1] == t1[0] && s[i2] == t2[0];
      }
      assert |t1| == |t2| by {
        assert s[i1 + |t1| - 1] == t1[|t1| - 1] && s[i2 + |t2| - 1] == t2[|t2| - 1];
      }
    }
  }

  /** The index of the first line feed. */
  function FirstNewline(s: string): (i: nat)
    requires '\n' in s
    ensures i < |s| && s[i] == '\n' && '\n' !in s[..i]
  {
    if s[0] == '\n' then 0
    else
      assert s == [s[0]] + s[1..];
      var j := FirstNewline(s[1..]);
      assert s[..j + 1] == [s[0]] + s[1..][..j];
      j + 1
  }

  /** A `\r` that ends a line terminated by `\n` belongs to the terminator. */
  function StripCR(l: string): string
  {
    if |l| > 0 && l[|l| - 1] == '\r' then l[..|l| - 1] else l
  }

  /** `str::lines`: split at `\n` or `\r\n`; a final terminator does not start an empty line. */
  function Lines(s: string): (ls: seq<string>)
    decreases |s|
    ensures |ls| <= |s|
  {
    if s == [] then []
    else if '\n' !in s then [s]
    else
      var i := FirstNewline(s);
      [StripCR(s[..i])] + Lines(s[i + 1..])
  }

  /** No line contains a line feed, and a non-empty text has at least one line. */
  lemma {:induction false} LinesHaveNoTerminator(s: string)
    ensures forall l :: l in Lines(s) ==> '\n' !in l
    ensures s != [] ==> |Lines(s)| >= 1
    decreases |s|
  {
    if s != [] && '\n' in s {
      var i := FirstNewline(s);
      LinesHaveNoTerminator(s[i + 1..]);
      assert forall c :: c in StripCR(s[..i]) ==> c in s[..i];
    }
  }

  /** Trim every line and keep the non-blank ones. */
  function Clean(lines: seq<string>): (ts: seq<string>)
    decreases |lines|
    ensures |ts| <= |lines|
    ensures forall k :: 0 <= k < |ts| ==> ts[k] != []
  {
    if lines == [] then []
    else
      var t := Trim(lines[0]);
      (if t == [] then [] else [t]) + Clean(lines[1..])
  }

  /** The ticker list read from the file's text. */
  function Tickers(raw: string): (ts: seq<string>)
    ensures forall k :: 0 <= k < |ts| ==> ts[k] != []
  {
    Clean(Lines(raw))
  }

  lemma {:induction false} CleanAppend(a: seq<string>, b: seq<string>)
    ensures Clean(a + b) == Clean(a) + Clean(b)
    decreases |a|
  {
    if a == [] {
      assert a + b == b;
    } else {
      assert (a + b)[1..] == a[1..] + b;
      assert (a + b)[0] == a[0];
      CleanAppend(a[1..], b);
    }
  }

  /** Trailing whitespace, a `\r` in particular, never survives `trim`. */
  lemma TrimDropsTrailingSpace(s: string, c: char)
    requires IsWhitespace(c)
    ensures Trim(s + [c]) == Trim(s)
  {
    var t, i := Trim(s), TrimFrom(s);
    TrimIsTrimOf(s);
    TrimIsTrimOf(s + [c]);
    assert IsTrimOf(s + [c], t, i) by {
      assert (s + [c])[i..i + |t|] == s[i..i + |t|];
    }
    TrimUnique(s + [c], t, i, Trim(s + [c]), TrimFrom(s + [c]));
  }

  lemma TrimStripCR(l: string)
    ensures Trim(StripCR(l)) == Trim(l)
  {
    if |l| > 0 && l[|l| - 1] == '\r' {
      assert l == l[..|l| - 1] + ['\r'];
      TrimDropsTrailingSpace(l[..|l| - 1], '\r');
    }
  }

  lemma FirstNewlineIs(s: string, i: nat)
    requires i < |s| && s[i] == '\n' && '\n' !in s[..i]
    ensures FirstNewline(s) == i
  {
  }

  /** A single line without a terminator yields its trimmed text, unless it is blank. */
  lemma TickersOfLine(l: string)
    requires '\n' !in l
    ensures Tickers(l) == if AllWhitespace(l) then [] else [Trim(l)]
  {
    if l != [] {
      assert Lines(l) == [l];
      assert Clean([l]) == (if Trim(l) == [] then [] else [Trim(l)]) + Clean([]);
    }
  }

  lemma LinesOfJoinAtFirst(a: string, b: string)
    requires '\n' !in a
    ensures Lines(a + "\n" + b) == [StripCR(a)] + Lines(b)
  {
    var s := a + "\n" + b;
    assert s[|a|] == '\n' && s[..|a|] == a;
    FirstNewlineIs(s, |a|);
    assert s[|a| + 1..] == b;
  }

  /** A file written one line per entry, each line terminated by a line feed. */
  function JoinLines(ls: seq<string>): (s: string)
  {
    if ls == [] then [] else ls[0] + "\n" + JoinLines(ls[1..])
  }

  /** A line as a file can hold it: no line feed inside, no `\r` at its end. */
  predicate IsPlainLine(l: string)
  {
    '\n' !in l && StripCR(l) == l
  }

  /** `str::lines` recovers exactly the lines a file was written from. */
  lemma {:induction false} LinesOfJoinLines(ls: seq<string>)
    requires forall k :: 0 <= k < |ls| ==> IsPlainLine(ls[k])
    ensures Lines(JoinLines(ls)) == ls
    decreases |ls|
  {
    if ls != [] {
      LinesOfJoinAtFirst(ls[0], JoinLines(ls[1..]));
      LinesOfJoinLines(ls[1..]);
    }
  }

  /**
   * The ticker list of a file written one line per entry is the entries,
   * trimmed, blank ones dropped, in file order with duplicates kept.
   */
  lemma TickersOfJoinLines(ls: seq<string>)
    requires forall k :: 0 <= k < |ls| ==> IsPlainLine(ls[k])
    ensures Tickers(JoinLines(ls)) == Clean(ls)
  {
    LinesOfJoinLines(ls);
  }

  /** A text is in the ticker list exactly when it is the non-empty trim of some line. */
  lemma {:induction false} CleanMembers(lines: seq<string>, t: string)
    ensures t in Clean(lines) <==> t != [] && exists k :: 0 <= k < |lines| && Trim(lines[k]) == t
    decreases |lines|
  {
    if lines != [] {
      CleanMembers(lines[1..], t);
      if t != [] && Trim(lines[0]) != t && (exists k :: 0 <= k < |lines| && Trim(lines[k]) == t) {
        var k :| 0 <= k < |lines| && Trim(lines[k]) == t;
        assert lines[1..][k - 1] == lines[k];
      }
      if exists k :: 0 <= k < |lines[1..]| && Trim(lines[1..][k]) == t {
        var k :| 0 <= k < |lines[1..]| && Trim(lines[1..][k]) == t;
        assert lines[k + 1] == lines[1..][k];
      }
    }
  }

  /** No ticker is empty or has whitespace at either end. */
  lemma {:induction false} TickersAreTrimmed(lines: seq<string>)
    ensures forall t :: t in Clean(lines) ==> t != [] && !IsWhitespace(t[0]) && !IsWhitespace(t[|t| - 1])
    decreases |lines|
  {
    if lines != [] {
      TickersAreTrimmed(lines[1..]);
    }
  }

  // ---------------------------------------------------------------------
  // Batching: `tickers.chunks(20)`.
  // ---------------------------------------------------------------------

  function Flatten(bs: seq<seq<string>>): seq<string>
  {
    if bs == [] then [] else bs[0] + Flatten(bs[1..])
  }

  function Chunks(xs: seq<string>): (bs: seq<seq<string>>)
    decreases |xs|
    ensures Flatten(bs) == xs
    ensures forall i :: 0 <= i < |bs| ==> 0 < |bs[i]| <= BATCH_SIZE
    ensures forall i :: 0 <= i < |bs| - 1 ==> |bs[i]| == BATCH_SIZE
    ensures |bs| == (|xs| + BATCH_SIZE - 1) / BATCH_SIZE
  {
    if xs == [] then []
    else if |xs| <= BATCH_SIZE then
      assert Flatten([xs]) == xs + Flatten([]);
      [xs]
    else
      var rest := Chunks(xs[BATCH_SIZE..]);
      assert ([xs[..BATCH_SIZE]] + rest)[1..] == rest;
      assert xs == xs[..BATCH_SIZE] + xs[BATCH_SIZE..];
      [xs[..BATCH_SIZE]] + rest
  }

  // ---------------------------------------------------------------------
  // Start-up: one session per batch, all forwarding to one persistence worker.
  // ---------------------------------------------------------------------

  /** The tickers each session subscribes to when it opens. */
  function Subscribed(sessions: seq<Ingestor.RunResult>): (bs: seq<seq<string>>)
    ensures |bs| == |sessions|
  {
    seq(|sessions|, i requires 0 <= i < |sessions| =>
      if sessions[i].commands == [] then [] else sessions[i].commands[0].marketTickers)
  }

  /**
   * The sessions started for the ticker file `raw`, where `streams[i]` is the
   * frame stream the i-th connection receives.
   */
  function Launch(raw: string, streams: seq<seq<Ingestor.Frame>>): (sessions: seq<Ingestor.RunResult>)
    requires |streams| == |Chunks(Tickers(raw))|
    ensures |sessions| == (|Tickers(raw)| + BATCH_SIZE - 1) / BATCH_SIZE
    // every session opens with a subscribe for at most 20 tickers
    ensures forall i :: 0 <= i < |sessions| ==>
      && |sessions[i].commands| >= 1
      && sessions[i].commands[0].cmd == "subscribe"
      && 0 < |sessions[i].commands[0].marketTickers| <= BATCH_SIZE
    // together the sessions subscribe to every ticker of the file once, in file order
    ensures Flatten(Subscribed(sessions)) == Tickers(raw)
  {
    var batches := Chunks(Tickers(raw));
    var sessions := seq(|batches|, i requires 0 <= i < |batches| => Ingestor.Session(batches[i], streams[i]));
    assert Subscribed(sessions) == batches;
    sessions
  }

  /**
   * Everything a session forwards carries a string `msg.market_ticker`, so the
   * persistence worker files it under its own ticker, never under the
   * catch-all key by fallback.
   */
  lemma ForwardedNeverFallsBack(frames: seq<Ingestor.Frame>, m: Message)
    requires m in Ingestor.Run(map[], frames).forwarded
    ensures Logger.RouteKey(m) == if m.ticker.Some? then m.ticker.value else m.marketTicker.value
  {
  }
}
