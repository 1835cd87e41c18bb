# A verified model of the order-book recorder

The system records a prediction-market exchange's order-book stream to disk and rebuilds order books from the recording afterwards. This project models its core logic in Dafny as pure functions over immutable data and proves properties about them.

**Recording side.**
- **Start-up** (`Main`): reads the ticker file and cuts the list into batches of 20. It then starts one streaming session per batch.
- **Session** (`Ingestor`): sends the opening subscription. It then folds over the inbound frames, keeping a per-ticker table of the last accepted delta sequence number. On a gap it resubscribes that one ticker. It decides which messages reach the persistence channel.
- **Handshake** (`Auth`, `Base64`): builds the authentication headers. These are the key id, the padded base64 signature of "timestamp + `GET/trade-api/ws/v2`", and the decimal millisecond timestamp.
- **Persistence worker** (`Logger`): routes each message to a lazily created per-key append-only writer. It flushes every writer whenever the channel is empty.

**Analysis side.** A log record (`Records`) carries the fields the queries read, and SQL NULL is `None`.
- **Engine views** (`Engine`): the typed views `ticker_data`, `deltas` and `snapshots`, plus the total-volume query.
- **Sum-per-level book** (`Book`): group the deltas by (price, side), sum them, keep positive totals, then split into bids and asks. The ordered map (`BTreeMap`) it fills is `LevelMap`.
- **Snapshot-epoch view** (`Analyzer`): the Python analyzer's reconstruction. It explodes snapshot levels, gives every delta the epoch of its latest snapshot, and computes running sums per (epoch, side, price). It then does a full outer join with the snapshot levels and drops non-positive rows. Loading a directory stops at the first file whose table name the SQL statements reject.
- **In-memory replay** (`Impact`): the example's `OrderBookState.update` state machine, the top-of-book levels `get_metrics` reads, and the script's loop over the log. That loop ends on a missing key or on a division by zero in `get_metrics`.

**Modelling choices.**
- **Tables as sequences.** Tables are sequences in log order. SQL leaves row order open but fixes how often each row occurs. The membership contracts say which rows appear. Multiplicity is stated only where a lemma says so: the sizes of the epoch and running-sum tables.
- **Integer prices.** Prices are integers. The sources hold them as floating-point numbers but only compare and group by them.
- **Inputs instead of effects.** The clock, the signer, the network, the channel's emptiness and JSON serialisation are all parameters or per-step inputs.

## Model

| member | source | states |
|---|---|---|
| Ingestor.Step | src/ingestor.rs:37-68 | A frame that fails decoding or has no string `msg.market_ticker` is dropped: no forward, no command, table unchanged. A non-delta type is forwarded unchanged without touching the table. A delta is forwarded iff it is not a gap (tracking warm and seq ≠ last+1). When forwarded it becomes the new `last`. On a gap exactly the unsubscribe(10)/subscribe(11) pair for that ticker is sent and `last` resets to 0. Only the frame's own ticker entry can change. |
| Ingestor.Run | src/ingestor.rs:37-68 | The fold over frames forwards only messages that arrived as frames and carry `msg.market_ticker`. Every command it sends names one ticker and has id 10 or 11. |
| Ingestor.Session | src/ingestor.rs:25-35 | The first command is `{id:1, cmd:"subscribe", channels:["orderbook_delta","ticker"], market_tickers: batch}`. The stream loop's commands follow it, starting from an empty table. |
| Ingestor.TableAfterStep | src/ingestor.rs:53-65 | The table after frame k is the one step k produced. |
| Ingestor.LastUnchangedBetween | src/ingestor.rs:53-65 | Frames that are not deltas of t leave t's entry unchanged. |
| Ingestor.ForwardedDeltasAreContiguous | src/ingestor.rs:52-65 | Two consecutive forwarded deltas of one ticker, the first with non-zero seq, are numbered s and s+1. |
| Ingestor.GapThenBaseline | src/ingestor.rs:55-65 | After a rejected delta of t, which sent exactly the resubscribe pair, the next delta of t is forwarded whatever its seq and sends nothing. |
| Ingestor.TableIsPerTicker | src/ingestor.rs:53-65 | The connection-wide table agrees, for every ticker, with a tracker fed only that ticker's sequence numbers. |
| Ingestor.GapScenario | src/ingestor.rs:55-63 | With last 5 and seq 8: nothing forwarded, the two commands in order, `last` back to 0, and the next delta accepted. |
| Logger.RouteKey | src/ingestor/logger.rs:12-14 | The key is the top-level `ticker` if it is a string, else `msg.market_ticker`, else `"unknown"`. |
| Logger.LogPath | src/ingestor/logger.rs:18 | The file is `logs/` + key + `.jsonl`, with the key at its place. |
| Logger.LogPathInjective | src/ingestor/logger.rs:16-18 | Distinct keys give distinct path strings. Whether the file system maps two path strings to one file is not modelled. |
| Logger.FlushAll | src/ingestor/logger.rs:27-31 | Every writer's flushed content becomes its written content, and the key set is unchanged. |
| Logger.Handle | src/ingestor/logger.rs:11-31 | The keys become the old keys plus this message's key, so a writer is created on first sight only. The message's key gains exactly its serialised line, or nothing if serialisation failed. No other writer's content changes. If the channel is then empty, every writer is flushed; otherwise no flushed prefix changes. Flushed content stays a prefix of written content. |
| Logger.Append | src/ingestor/logger.rs:16-24 | The message's key gets a writer on its own file if it had none, and gains exactly the serialised line, or nothing if serialisation failed. Every other writer is unchanged, and an existing writer keeps its flushed prefix. |
| Logger.Drain | src/ingestor/logger.rs:9-32 | After any sequence of messages the writers are valid and are exactly the keys seen. |
| Logger.Close | src/ingestor/logger.rs:11-32 | When the channel closes, every writer's file holds everything written to it. |
| Logger.DrainWritesLinesInOrder | src/ingestor/logger.rs:11-24 | Each key's written lines are exactly the serialised lines of the messages routed to it, in receiving order. Messages that failed to serialise are skipped. |
| Logger.FlushedWhenChannelEmpty | src/ingestor/logger.rs:26-31 | When the last message left the channel empty, every file holds all lines routed to its key. |
| Logger.FlushedOnlyGrows | src/ingestor/logger.rs:22-31 | Handling one message extends the flushed prefix of every writer that already existed. |
| Main.SkipForward | src/main.rs:27 | Returns the first non-whitespace position at or after k. |
| Main.SkipBackward | src/main.rs:27 | Returns the end of the text once trailing whitespace is dropped. |
| Main.Trim | src/main.rs:27 | The result is empty exactly for all-whitespace input; otherwise it neither starts nor ends with whitespace. |
| Main.TrimIsTrimOf | src/main.rs:27 | What `trim` removes is whitespace at both ends, and what it keeps is one contiguous piece of the text. |
| Main.TrimUnique | src/main.rs:27 | Only one text satisfies that description, so `trim` is determined by it. |
| Main.FirstNewline | src/main.rs:26 | Returns the index of the first line feed. |
| Main.Lines | src/main.rs:26 | `str::lines`: splits at `\n` or `\r\n`, and there are never more lines than characters. |
| Main.LinesHaveNoTerminator | src/main.rs:26 | No line contains a line feed, and a non-empty text has at least one line. |
| Main.Clean | src/main.rs:27-29 | Trimming and filtering never yields an empty ticker. |
| Main.Tickers | src/main.rs:26-29 | No ticker read from the file is empty. |
| Main.CleanAppend | src/main.rs:26-29 | Cleaning distributes over concatenated line lists, so order is kept. |
| Main.TrimDropsTrailingSpace | src/main.rs:27 | A trailing whitespace character never survives `trim`. |
| Main.TrimStripCR | src/main.rs:26-27 | Stripping the `\r` of a `\r\n` terminator does not change the trimmed text. |
| Main.FirstNewlineIs | src/main.rs:26 | Characterises the first line feed. |
| Main.TickersOfLine | src/main.rs:26-29 | A single line gives its trimmed text, unless it is blank. |
| Main.LinesOfJoinAtFirst | src/main.rs:26 | The text up to the first `\n` is the first line. |
| Main.LinesOfJoinLines | src/main.rs:26 | `lines` recovers exactly the lines a file was written from (round trip). |
| Main.TickersOfJoinLines | src/main.rs:26-29 | The tickers of such a file are its trimmed non-blank lines, in order, with duplicates kept. |
| Main.CleanMembers | src/main.rs:27-29 | A text is a ticker iff it is the non-empty trim of some line. |
| Main.TickersAreTrimmed | src/main.rs:27-28 | No ticker is empty or has whitespace at either end. |
| Main.Chunks | src/main.rs:43 | The batches concatenate back to the list. Each batch has 1 to 20 tickers, all but the last exactly 20, and there are ⌈n/20⌉ of them. |
| Main.Launch | src/main.rs:43-53 | ⌈n/20⌉ sessions are started (none for an empty list). Each opens with a subscribe for 1 to 20 tickers. Together they subscribe to every ticker of the file once, in order. |
| Main.ForwardedNeverFallsBack | src/ingestor.rs:43-46 | Every message a session forwards is filed under its top-level `ticker` or its `msg.market_ticker`, never under `"unknown"` by fallback. |
| Auth.DigitChar | src/ingestor/auth.rs:41-42 | Each digit of the rendering is a decimal digit character. |
| Auth.Decimal | src/ingestor/auth.rs:38-42 | `to_string` of the milliseconds is non-empty, all decimal digits, with no leading zero. |
| Auth.ParseU64 | src/ingestor/auth.rs:86 | `str::parse::<u64>` accepts only an optional `+` then digits, and the value must fit in 64 bits. |
| Auth.DigitsValueOfDecimal | src/ingestor/auth.rs:38-42 | The rendering denotes the number it renders. |
| Auth.ParseDecimal | src/ingestor/auth.rs:38-42 | The timestamp parses back as a u64 exactly when it is below 2^64. |
| Auth.Challenge | src/ingestor/auth.rs:43 | The signed text is the timestamp followed by `GET/trade-api/ws/v2`. |
| Auth.ChallengeIsAscii | src/ingestor/auth.rs:43-45 | The challenge is ASCII, so its bytes are its characters. |
| Auth.AuthHeaders | src/ingestor/auth.rs:37-51 | The key id is returned as configured. The timestamp is all digits and parses back to the clock reading. The signature header decodes to the signature of the bytes of that same timestamp's challenge. |
| Auth.SignatureHeaderLength | src/ingestor/auth.rs:48 | The signature header has 4·⌈n/3⌉ characters, so it is non-empty for a non-empty signature. |
| Auth.ChallengeInjective | src/ingestor/auth.rs:43 | Two handshakes sign the same text only at the same millisecond. |
| Base64.ValueOfDigit | src/ingestor/auth.rs:48 | Every 6-bit value's digit decodes back to it. |
| Base64.DigitOfValue | src/ingestor/auth.rs:48 | Every alphabet character is the digit of its value. |
| Base64.FromToSextets | src/ingestor/auth.rs:48 | Regrouping three bytes into four 6-bit values and back loses nothing. |
| Base64.ToFromSextets | src/ingestor/auth.rs:48 | Regrouping four 6-bit values into three bytes and back loses nothing. |
| Base64.Encode | src/ingestor/auth.rs:48 | `STANDARD.encode` produces a whole number of 4-character groups. |
| Base64.EncodeLength | src/ingestor/auth.rs:48 | The encoding has 4·⌈n/3⌉ characters, and is empty only for no bytes. |
| Base64.DecodeEncode | src/ingestor/auth.rs:48 | Decoding the encoding gives the bytes back. |
| Base64.EncodeDecode | src/ingestor/auth.rs:48 | Whatever strictly decodes re-encodes to the same text, so the encoding is canonical. |
| Base64.EncodeShape | src/ingestor/auth.rs:48 | Every character of an encoding is in the alphabet or is `=`. |
| Records.SqlAdd | src/analysis/book.rs:16 | A SQL `SUM` step is NULL only when both the running sum and the value are NULL. |
| Engine.Select | src/analysis/engine.rs:30-61 | A view has at most as many rows as the log. |
| Engine.SelectAppend | src/analysis/engine.rs:30-61 | The view of a concatenated log is the concatenation of the views. |
| Engine.SelectMembers | src/analysis/engine.rs:30-61 | A view row comes from a record of the view's type, and every such record gives one. |
| Engine.SelectSkips | src/analysis/engine.rs:40-41 | A record of another type changes no view, wherever it sits. |
| Engine.TickerData | src/analysis/engine.rs:31-41 | The `ticker_data` view: the `ticker` records, in log order. Its rows are characterised by TickerDataMembers. |
| Engine.Deltas | src/analysis/engine.rs:43-53 | The `deltas` view: the delta records, in log order. Its rows are characterised by DeltasMembers. |
| Engine.Snapshots | src/analysis/engine.rs:55-61 | The `snapshots` view: the snapshot records, in log order. Its rows are characterised by SnapshotsMembers. |
| Engine.TotalVolume | src/analysis/engine.rs:67-73 | `get_total_volume`: the MAX over the ticker's `ticker_data` rows. TotalVolumeIsMax states what it yields. |
| Engine.TickerDataMembers | src/analysis/engine.rs:31-41 | `ticker_data` holds exactly the `ticker` records, keyed by `msg.market_ticker`, with their volume. |
| Engine.DeltasMembers | src/analysis/engine.rs:43-53 | `deltas` holds exactly the delta records, with ticker, price, delta and side from `msg` and sequence from the top-level `seq`. |
| Engine.SnapshotsMembers | src/analysis/engine.rs:55-61 | `snapshots` holds exactly the snapshot records, with ticker, market id and sequence. |
| Engine.MaxVolume | src/analysis/engine.rs:69 | `MAX(volume)` over the ticker's rows is at least every non-NULL volume and is attained by one of them. It is NULL when there is none. |
| Engine.TotalVolumeIsMax | src/analysis/engine.rs:67-73 | The total volume exists iff some `ticker` record for t has a volume. It is the largest such volume; NULL means `get_total_volume` fails. |
| LevelMap.Get | src/analysis/book.rs:32-41 | A lookup hit is a stored level; a miss means no level has that price. |
| LevelMap.Insert | src/analysis/book.rs:38-40 | `BTreeMap::insert` keeps the keys strictly increasing. |
| LevelMap.GetInsert | src/analysis/book.rs:38-40 | After insert, p maps to q and every other price keeps its lookup. |
| LevelMap.GetIff | src/analysis/book.rs:32-47 | In a price-keyed map, a level is present iff its price looks up to its quantity. |
| LevelMap.Remove | examples/impact.py:18 | `dict.pop` keeps the keys strictly increasing. |
| LevelMap.GetRemove | examples/impact.py:18 | After pop, p is absent and every other price keeps its lookup. |
| LevelMap.Updates | examples/impact.py:17-18 | Insert and remove change the lookup at one price only, for every price. |
| LevelMap.Extremes | examples/impact.py:22-26 | The first level has the lowest price present and the last the highest. |
| LevelMap.Reverse | src/analysis/book.rs:46 | `iter().rev()` lists the levels last to first. |
| LevelMap.ReverseDescending | src/analysis/book.rs:46 | Reversing an ascending map gives strictly decreasing prices with the same levels. |
| Book.ForTicker | src/analysis/book.rs:18-19 | Only delta rows of the requested ticker feed the query. |
| Book.Total | src/analysis/book.rs:16-20 | `SUM(delta)` of one (price, side) group, NULL when the group has no non-NULL delta. TotalHasGroup and QueryMembers state its use. |
| Book.Query | src/analysis/book.rs:13-23 | The query's rows: the groups, in order of first occurrence, that survive HAVING. QueryMembers characterises them. |
| Book.Groups | src/analysis/book.rs:20 | `GROUP BY price, side` yields each group once. |
| Book.Having | src/analysis/book.rs:21 | Only groups with a positive total survive, and there are no more of them than groups. |
| Book.GroupsMembers | src/analysis/book.rs:20 | A group exists iff some row has that (price, side), NULLs forming their own group. |
| Book.TotalHasGroup | src/analysis/book.rs:16-20 | A non-NULL total belongs to a group that occurs. |
| Book.HavingMembers | src/analysis/book.rs:16-21 | A surviving row is a listed group with its positive total. |
| Book.HavingDistinct | src/analysis/book.rs:20-21 | Distinct groups give rows with distinct (price, side). |
| Book.QueryMembers | src/analysis/book.rs:13-23 | A query row is exactly a (price, side) whose delta sum is positive, with that sum. |
| Book.Fill | src/analysis/book.rs:32-42 | A successful loop leaves both maps strictly increasing in price. |
| Book.FillFails | src/analysis/book.rs:25-36 | The loop fails exactly when some row has a NULL price or side. |
| Book.FillBids | src/analysis/book.rs:37-38 | The bids hold exactly the "yes" rows, price to total. |
| Book.FillAsks | src/analysis/book.rs:39-41 | Every ask comes from a non-"yes" row at its price, and every such price is asked. |
| Book.ReconstructBook | src/analysis/book.rs:44-49 | The result's ticker is the requested one and its timestamp is `"reconstructed"`. Bids strictly decrease and asks strictly increase in price, so no price repeats within a side. |
| Book.BookFails | src/analysis/book.rs:13-36 | The call fails exactly when a positive-total group has a NULL price or side. |
| Book.BookBids | src/analysis/book.rs:13-38 | A bid level is a price whose "yes" deltas for t sum to a positive total, and that total; the converse holds too. |
| Book.BookAsksSound | src/analysis/book.rs:13-41 | An ask level is the positive total of some non-"yes" side at that price. |
| Book.BookAsksComplete | src/analysis/book.rs:13-41 | Every price with a positive total on a non-"yes" side is asked. |
| Book.ForTickerAppend | src/analysis/book.rs:18-19 | Ticker filtering distributes over concatenation. |
| Book.RowsIgnoreOtherRecords | src/analysis/book.rs:18-19 | The input rows ignore any record that is not a delta for t. |
| Book.BookIgnoresOtherRecords | src/analysis/book.rs:13-49 | Adding any record that is not a delta for t changes nothing, so snapshots are not consulted. |
| Impact.ApplyDelta | examples/impact.py:17-18 | The level's new quantity is the old one (0 if absent) plus the delta when positive, and the level is removed otherwise. Every other price keeps its lookup. |
| Impact.LevelsToMap | examples/impact.py:12-13 | The dict comprehension over a snapshot side. LevelsToMapKeys and LevelsToMapLastWins characterise it. |
| Impact.Update | examples/impact.py:10-18 | A delta lacking its price, delta or side raises, and, with a JSON-null level list read as empty, nothing else does. Apart from a snapshot, an update leaves at least one side as it was. |
| Impact.Replay | examples/impact.py:54-55 | Feeding records one by one fails exactly when some record raises (a JSON-null level list is read as empty, not as a failure). |
| Impact.RunStudy | examples/impact.py:54-59 | The script's loop holds the replayed book and collects at most one metrics entry per record. After a record, `get_metrics` succeeded. When it gave metrics, they are the last history entry. |
| Impact.GetMetrics | examples/impact.py:20-34 | The result is None exactly when either side is empty. It fails with a division by zero exactly when both sides hold a level and the two best volumes sum to zero, which only a book with a non-positive level can reach. Otherwise it is the top of book. |
| Impact.MetricsAreBest | examples/impact.py:22-26 | The best bid is the highest bid price with its volume. The best ask is 100 minus the lowest no price, with that level's volume. |
| Impact.LevelsToMapKeys | examples/impact.py:12-13 | A price is on a snapshot side iff it is listed. |
| Impact.LevelsToMapLastWins | examples/impact.py:12-13 | A price carries the quantity it is listed with last. |
| Impact.SnapshotReplaces | examples/impact.py:11-13 | A snapshot replaces the bids with its yes levels and the asks with its no levels. A missing list gives an empty side. |
| Impact.DeltaTouchesOneLevel | examples/impact.py:14-18 | A complete delta on "yes" changes only bids, and on any other side only asks, at its price only. |
| Impact.DeltaAdds | examples/impact.py:17-18 | The touched level is the old quantity plus the delta, or absent if that is not positive. |
| Impact.OtherRecords | examples/impact.py:10-15 | A delta missing price, delta or side raises. Any other type leaves the book unchanged. |
| Impact.PositiveByGet | examples/impact.py:17-18 | A side's levels are positive iff every present price looks up to a positive quantity. |
| Impact.LevelsToMapPositive | examples/impact.py:12-13 | Positive listed quantities give a positive side. |
| Impact.DeltaKeepsPositive | examples/impact.py:17-18 | A delta keeps every level of a positive book positive. |
| Impact.ReplayStaysPositive | examples/impact.py:10-18 | From an empty book, if no snapshot lists a non-positive quantity, every level stays positive through any replay. |
| Impact.StudyCompletes | examples/impact.py:10-59 | On a log with no incomplete delta and no non-positive snapshot quantity, the script's loop runs to the end without an exception, JSON-null level lists aside (the record type cannot express one). |
| Impact.ZeroVolumeStopsStudy | examples/impact.py:29 | A snapshot whose only yes and no levels both hold 0 ends the script with a division by zero. |
| Analyzer.LowerAll | python/orderbook/analyzer.py:16 | `lower()` keeps the length. |
| Analyzer.ReplaceAll | python/orderbook/analyzer.py:14-16 | `str.replace`, left to right and without overlaps. ReplaceAllAbsent, ReplaceAllSuffix and ReplaceAllChar characterise it. |
| Analyzer.TableName | python/orderbook/analyzer.py:14-16 | The table name of a file: `.jsonl` removed, dashes as underscores, lower-cased. ViewNameOfStem characterises it. |
| Analyzer.ViewName | python/orderbook/analyzer.py:64 | `orderbook_` followed by the table name. |
| Analyzer.SnapshotLevels | python/orderbook/analyzer.py:29-46 | The exploded yes levels, then (`UNION ALL`) the no levels. SnapshotLevelsMembers characterises its rows. |
| Analyzer.Events | python/orderbook/analyzer.py:49-60 | The epoch table in log order. EventsMembers states its size and its rows. |
| Analyzer.DeltaSums | python/orderbook/analyzer.py:65-69 | The running-sum table in event order. DeltaSumsMembers states its size and its rows. |
| Analyzer.Orderbook | python/orderbook/analyzer.py:63-81 | No row of the reconstructed view has a quantity of zero or below. OrderbookMembers states which rows appear. |
| Analyzer.Epoch | python/orderbook/analyzer.py:56-57 | A row's epoch is the greatest seq of a snapshot of its ticker at or before its seq (any seq, for a NULL seq). It is NULL when there is none. |
| Analyzer.MatchedBy | python/orderbook/analyzer.py:76-79 | Computes whether some running-sum row matches a snapshot level. |
| Analyzer.FlatMapMembers | python/orderbook/analyzer.py:29-81 | A row of a concatenation of per-element rows comes from some element. |
| Analyzer.PositiveMembers | python/orderbook/analyzer.py:80 | A row survives `WHERE current_qty > 0` iff its quantity is positive. |
| Analyzer.PairsWithMembers | python/orderbook/analyzer.py:71-79 | A running sum joins every snapshot level matching its epoch, side and price. NULLs never match. |
| Analyzer.PairsWithEmpty | python/orderbook/analyzer.py:76-79 | A running sum joins no level iff it has no match. |
| Analyzer.RowsOfSumMembers | python/orderbook/analyzer.py:70-79 | A running sum gives its joined rows (snapshot qty + running sum), or itself alone when nothing matches. |
| Analyzer.LeftRowsMembers | python/orderbook/analyzer.py:70-79 | The left side of the outer join is the union of those rows over all running sums. |
| Analyzer.UnmatchedMembers | python/orderbook/analyzer.py:70-79 | Snapshot levels that no running sum matches appear with their own seq, side, price and qty. |
| Analyzer.SnapshotLevelsMembers | python/orderbook/analyzer.py:29-46 | A snapshot row is exactly one yes level as side `'yes'` or one no level as side `'no'` of one snapshot, as (price, qty) at the snapshot's seq. |
| Analyzer.EventsMembers | python/orderbook/analyzer.py:49-60 | The epoch table has as many rows as there are delta and snapshot records. Its rows are exactly those records, each with its ticker (coalesced), seq, side, price, delta and epoch. |
| Analyzer.DeltaSumsMembers | python/orderbook/analyzer.py:65-69 | The running-sum table has as many rows as there are events with a delta. Its rows are exactly those events, each with its sum over its (epoch, side, price) frame. |
| Analyzer.OrderbookMembers | python/orderbook/analyzer.py:63-81 | A view row has positive quantity and is one of: a running sum joined with a matching level (qty + running sum); a running sum with no matching level (the sum alone, its own seq); or a level no running sum matches (its own qty and seq). |
| Analyzer.ReplaceAllAbsent | python/orderbook/analyzer.py:14-16 | `replace` changes nothing when the pattern's first character does not occur. |
| Analyzer.ReplaceAllSuffix | python/orderbook/analyzer.py:14 | A pattern occurring only as the suffix is replaced there and only there. |
| Analyzer.ReplaceAllChar | python/orderbook/analyzer.py:16 | Replacing `-` by `_` maps the string character by character. |
| Analyzer.ViewNameOfStem | python/orderbook/analyzer.py:14-16 | For `stem.jsonl` with no dot in the stem, the view is `orderbook_` followed by the stem with dashes as underscores, lower-cased. |
| Analyzer.LowerMockTicker | tests/test_analyzer.py:8 | `MOCK_TICKER` lower-cases to `mock_ticker`. |
| Analyzer.MockTickerTable | tests/test_analyzer.py:8 | `MOCK_TICKER.jsonl` is accepted by the SQL statements and defines the view queried as `orderbook_mock_ticker` on line 23. |
| Analyzer.StemLoadable | python/orderbook/analyzer.py:14-26 | A log whose stem holds only identifier characters and dashes, and no dot, is accepted by the SQL statements. |
| Analyzer.RegisterKeys | python/orderbook/analyzer.py:10-16 | A name is defined iff some file gives it. |
| Analyzer.RegisterLastWins | python/orderbook/analyzer.py:63-64 | A re-defined name holds the last definition. |
| Analyzer.LoadAll | python/orderbook/analyzer.py:10-26 | `load_all` raises exactly when some file is rejected by the SQL statements, and names the first such file. |
| Analyzer.FirstFailure | python/orderbook/analyzer.py:11-26 | The first rejected file: every file before it is accepted, and the file itself is rejected. |
| Analyzer.ReachedBeforeFailure | python/orderbook/analyzer.py:11-26 | `load_all` reaches and loads a file iff it comes before the first rejected file. |
| Analyzer.LoadAllKeys | python/orderbook/analyzer.py:11-26 | A view is defined iff some `.jsonl` file named after it was reached, that is, listed before the first file the SQL statements reject. |
| Analyzer.LoadAllLastWins | python/orderbook/analyzer.py:63-64 | On a name clash, the view holds the reconstruction of the last file defining it among the files reached (`CREATE OR REPLACE`). |
| Analyzer.CumDeltaAppend | python/orderbook/analyzer.py:67 | The running sum over a concatenation adds the sums of the parts. |
| Analyzer.CumDeltaOutside | python/orderbook/analyzer.py:67 | Events outside the frame, or without a delta, contribute nothing. |
| Analyzer.CumDeltaRestart | python/orderbook/analyzer.py:56-57 | The running sum restarts at each snapshot: deltas of earlier epochs do not count. |
| Analyzer.PairSums | python/orderbook/analyzer.py:49-69 | In a log of one snapshot then one later delta of the same ticker, the only running-sum row is the delta's. It sits in the snapshot's epoch with the delta as its sum. |
| Analyzer.PairLevels | python/orderbook/analyzer.py:29-46 | A log whose only snapshot has one yes and one no level gives those two rows. |
| Analyzer.JoinFirstOfTwo | python/orderbook/analyzer.py:70-79 | A running sum that matches the first of two levels and not the second joins with the first. The second level appears alone. |
| Analyzer.JoinTwoPositive | python/orderbook/analyzer.py:70-80 | With both resulting quantities positive, the view is the joined row followed by the lone level. |
| Analyzer.SnapshotThenDelta | tests/test_analyzer.py:11-27 | The test's scenario, for any numbers: a snapshot with yes level (p, q) and no level (p2, q2), then a later yes delta dq at p. The view is exactly the yes level at the delta's seq with q + dq (1000 + 500 = 1500 in the test) and the no level with q2. |

## Left out

- **Network.** The websocket URL and request, header insertion, connecting, sending, receiving and loop termination are left out. So is debug printing. Frames arrive as a sequence and commands are returned as a sequence.
- **Command fields.** Each outbound command is modelled by its id, cmd, channels and market tickers. JSON serialisation of the command is not modelled.
- **Signing.** RSA-PSS signing, its randomness, and PEM/PKCS#1 key loading with its panics are left out. The signature is a function parameter of the signed bytes.
- **Clock.** The system clock is a parameter (milliseconds since the epoch).
- **Concurrency.** Tokio tasks, the logger thread and the bounded channel's blocking are left out, as are ignored send errors. The channel's emptiness after each message is a per-step input.
- **File system.** Directory creation, opening files and the 64 KB buffer's own automatic flushes are left out, as are ignored write and flush errors. Serialisation success is an input of each step.
- **Configuration.** Command-line parsing, `.env` loading and environment variables are left out.
- **DuckDB.** `read_json_auto`, JSON extraction and type casts are left out. The records are already decoded, with NULL as `None`.
- **Unmodelled columns.** The floating-point and timestamp columns of `ticker_data` and `deltas` are not modelled, since no core query reads them.
- **Rounding casts.** Prices are integers, so the `CAST(... AS INT)` rounding of floating-point prices is not modelled. Neither is integer overflow of `i64`/`BIGINT` sums: integers are unbounded.
- **Impact metrics.** The floating-point metrics of the example (mid, micro-price, imbalance, spread) and its plotting are left out. The division by zero that ends the script is modelled.
- **Directory listing.** The listing order of the log directory is the order of the file sequence passed in.
- Ingestor.Step: sequence overflow. Computes `last + 1` without `u64` overflow. A stored `last` of 2^64−1 therefore treats every next seq as a gap. A build with overflow checks would panic there instead, and one without would accept seq 0.
- Impact.Update: null side. A delta whose `side` is JSON null is treated like a missing key (an error). The source would instead route it to the asks, because the record type does not tell a null field from an absent one.
- Impact.Update: null level list. A snapshot whose `yes` or `no` list is JSON null makes the script raise `TypeError`; the record type folds null and a missing key into one `None`, which the model reads as an empty list, so `Update` succeeds there.
- Impact.Replay: null level list. Inherits the gap from `Impact.Update`: a log holding a snapshot with a JSON-null level list fails in the script but not in the model.
- Impact.StudyCompletes: null level list. The premise cannot exclude a JSON-null level list, since the record type cannot express one; on such a log the script raises although the lemma's premise holds.
- Book.BookAsksSound: ask ties. Only says which non-"yes" side supplied an ask level. When two non-"yes" sides have the same price, the source's winner depends on SQL row order among equal prices, which is left open.
- Analyzer.LowerAll: ASCII only. Lower-cases ASCII letters only; Python's `str.lower` also folds non-ASCII letters.
- Logger.LogPathInjective: distinct path strings only. Two keys can still name one file, as `a` and `./a` do, or two keys differing only in case on a case-insensitive file system. The file system is not modelled.
- Impact.SnapshotReplaces: null level list. A snapshot whose `yes` or `no` is JSON null gets an empty side. The source raises `TypeError` there, because `msg.get` returns None for a null value. The record type does not tell a null list from a missing one, which does give an empty side.
- Analyzer.OrderbookMembers: which rows, not how many. It says which rows the view holds but not how often each occurs, so duplicate rows (a level listed twice in a snapshot, say) are not covered.
- Analyzer.Loadable: SQL lexer rule. A table name is taken to be accepted iff every character is an ASCII letter or digit, `_`, `$` or non-ASCII, the identifier characters of the SQL lexer. Any other character is taken to make the statements raise. Errors from reading a file's contents are not modelled.
- **Other files.** `src/error.rs` (an error enum) and `src/ingestor/mod.rs` (re-exports) are not part of this model. Neither are the example scripts other than `examples/impact.py`, which drive the recorder or plot results.
