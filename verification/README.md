# Verified model of the log-analysis server and its client

The repository is a TCP service: a client uploads a log file, the server validates and counts its lines
while they arrive, and sends back a small CSV file with the result, which can be fetched again, from where
it broke off, if the connection is lost. This project models the parts that decide whether that result is
right, in Dafny, and proves what the design promises about them.

`dafny verify dfyconfig.toml` checks everything.

## How the model is laid out

| file | what it models |
|---|---|
| `Bytes`, `Sums`, `Sorting` | byte strings and searching, sums over sequences and maps, the one sorted form of a list |
| `Crc32`, `CrcValues` | the checksum: table-driven loop against a bit-serial division register, and its published check value and residue |
| `Codec`, `WireForm`, `Framer` | the wire messages, their bytes written out, and the framer that cuts them out of a stream |
| `SpscRing` | the lock-free ring, stepped one shared access at a time, and the object itself |
| `LineReassembler` | chunks to lines, against a split of the whole stream |
| `Calendar`, `LogLineParser`, `StatsCollector`, `SkipReporter` | validation of a line, hourly counts, the report on rejected lines |
| `LineGrammar` | which lines are accepted, as a grammar and a table of modules and fields, and that the parser decides exactly that |
| `FullWindow` | around every anchor, a log file that fills every hour of the window in every module |
| `Analysis` | the parser thread's work on one session's bytes, as a function of the payload and as the objects it owns |
| `Counting`, `Reporting` | for every payload, what each counter, sample and name of the tally is, in terms of the lines accepted and rejected |
| `CsvBuilder`, `ResultSize`, `ResultSummary`, `Readback` | the result file, how large it can get, the client's independent reading of it, and the round trip |
| `ResultTable` | the whole result file read as a table by a reader that does not know how it was built |
| `Reception` | what an inbound stream amounts to, read as a whole |
| `Pipeline` | the two threads as a transition system: session callbacks, accept gate, ring, flags, signals |
| `PipelineRing` | that system's queue is the ring of `SpscRing` |
| `PipelineInvariant`, `PipelineSession`, `PipelineSteps`, `PipelineCallbacks`, `PipelineEvents`, `PipelineOwn`, `PipelineRuns` | the invariant of that system, and that every step keeps it |
| `PipelineTheorems`, `PipelineBackpressure`, `PipelineGate` | what it means over every run: the stream decides, a paused upload is woken, a shut gate opens |
| `PipelineEndings` | in every run a session is torn down exactly if there is a reason, and the next client is let in |
| `PipelineProgress` | in every schedule the result of an announced upload is posted |
| `PipelineResults` | which result is kept, and whose a session is sent in every run that tears no session down while ANALYZING |
| `SampleRuns`, `TornSession`, `TornAlways` | pieces of runs, a run that breaks that hypothesis, and that every such teardown can hand a result to the wrong client |
| `Disagreements`, `Mistaken` | runs in which the code does not do what its comments say, and one in which a request is answered with another client's result |
| `ResultClient`, `ClientRules`, `Resume`, `EndToEnd` | the client's receive side and claim, what it does with any server's bytes, resumption against a kept result, and one client of a server with any others |

Objects that the source updates in place are classes with loops (`Framer.Framer`, `SpscRing.SpscRingBuffer`,
`LineReassembler.LineReassembler`, `LogLineParser.LogLineParser`, `StatsCollector.StatsCollector`,
`SkipReporter.SkipReporter`, `Analysis.Analyzer`, `ResultClient.TransferService`); each method's new state is
a function of its old state, and the theorems are about those functions. The two threads are a transition
system instead, because what matters about them is every interleaving. A step is one access to the ring, to one
of the atomic flags or to one of the three signals that coalesce, in sequentially consistent order. Three steps
are more than one access: the parser's wait reads two flags and the ring, copying a piece into the ring tests for
room and commits, and discarding an entry peeks and releases; the other thread cannot undo what the first of these
accesses found. A run is any sequence of actions, and one that is not enabled does not happen.

The theorems of `PipelineTheorems`, `PipelineBackpressure`, `PipelineGate` and `PipelineEndings` hold in every run. Those about whose result a session
is sent (`PipelineResults`, `EndToEnd`) have one hypothesis, `Pipeline.Tame`: no session is torn down while its phase
is ANALYZING. It is needed, because a teardown then leaves the upload flag or the completion signal behind:
`TornSession.WrongResult` builds a run in which the next client is handed somebody else's result, and
`TornAlways.TeardownLeaks` continues every run that reaches such a teardown to one that does.

Where comments and code disagree, the model follows the code:

- WAIT_DONE is entered on the first send completion seen in SENDING_RESULT, not on the last
  (`server/src/session/Session.cpp:472-476`): `Disagreements.AckEntersWaitDone` is a run in which it is that of the
  acknowledgement, and `PipelineTheorems.WaitDoneEntry` says exactly when nothing is outstanding at that moment.
- Bytes after the trailer are dropped when the chunk came in through a ring slot, and end the session when it
  came in through the session buffer (`server/src/session/Session.cpp:160-166` and `184-188`):
  `Disagreements.CutDecides` cuts one stream in both ways, and `PipelineTheorems.BytesAfterTrailer` says which cuts
  do which.
- The 48-hour window spans 97 hour buckets, so the bound is 485 entries, not the 480 in
  `server/src/stats/StatsCollector.h:16-18`: `FullWindow.BoundAttained` gives a file of at most 33,048 bytes that
  reaches it, around every anchor with 48 hours of the years 0 to 9999 on either side.
- The framer's cap is 285 bytes for every type; `Framer.LongNameLeftToCodec` says what follows from it.
- `common/protocol/protocol.h:84-91` bounds a result by 570,186 bytes; `ResultSize.ResultFits` bounds it by 28,785.

## Model

| member | source | states |
|---|---|---|
| `Crc32.MakeTable` | common/util/Crc32.cpp:11-21 | every table entry is eight shifts of the division register |
| `Crc32.Compute` | common/util/Crc32.cpp:27-35 | the table-driven loop computes the bit-serial CRC-32, one message bit at a time, of all the data, continued from any earlier checksum |
| `Crc32.TableStepIsEightBits` | common/util/Crc32.cpp:30-33 | one table step divides by the eight bits of the byte, for every register and byte |
| `Crc32.PolynomialValue` | common/util/Crc32.cpp:9 | the generator's bits are the number 0xEDB88320 |
| `Crc32.ChecksumAppend` | common/util/Crc32.cpp:27-35 | the checksum of a stream does not depend on where it was cut |
| `Crc32.OneByteErrorDetected` | common/util/Crc32.cpp:27-35 | changing one byte anywhere in any payload changes the checksum |
| `CrcValues.CheckValue` | common/util/Crc32.cpp:27-35 | the checksum of "123456789" is 0xCBF43926 |
| `CrcValues.Residue` | common/util/Crc32.cpp:27-35 | every stream followed by its own checksum, least significant byte first, has the checksum 0x2144DF1C |
| `Codec.PutUnsigned` | common/protocol/Codec.cpp:8-26 | shifting writes the big-endian digits of the number |
| `Codec.GetUnsigned` | common/protocol/Codec.cpp:30-48 | reads back the number those digits denote |
| `Codec.ScanFilename` | common/protocol/Codec.cpp:80-93 | accepts exactly 1 to 255 bytes without control characters and separators |
| `Codec.DecodeEncode` | common/protocol/Codec.cpp:139-303 | decoding an encoded valid message gives it back, whatever follows it |
| `Codec.DecodePrefix` | common/protocol/Codec.cpp:194-303 | every strict prefix of an encoded message asks for more data |
| `Codec.EncodeDecode` | common/protocol/Codec.cpp:194-303 | whatever decodes is the encoding of the decoded message, except for the two reserved bytes |
| `WireForm.EncodeIsWire` | common/protocol/Codec.cpp:139-192 | each of the six messages, with each of the six statuses and whatever its fields, is sent as the literal bytes of the protocol's layout |
| `WireForm.DecodeRefuses` | common/protocol/Codec.cpp:62-78 | a receiver refuses exactly a wrong magic, then a version other than 1, then a type number other than the expected one, once it has eight bytes |
| `WireForm.HeaderLetThrough` | common/protocol/Codec.cpp:194-218 | an upload header is let through exactly up to 8 GiB and with 1 to 255 printable bytes that are no path separators |
| `WireForm.RequestLetThrough` | common/protocol/Codec.cpp:265-299 | a request is let through exactly up to 8 GiB, offset 4 MiB and with such a name |
| `Framer.ChunkingIrrelevant` | common/protocol/Framer.cpp:37-104 | verdict, accumulated message and total consumption are those of the whole stream, for every way to cut it |
| `Framer.JudgeAgrees` | common/protocol/Framer.cpp:45-91 | one round of the loop agrees with the whole-stream verdict, and an undecided message always has further to read, so the no-progress rejection cannot happen |
| `Framer.NoOvershoot` | common/protocol/Framer.cpp:92-101 | reading up to the target never passes the end of the message |
| `WireForm.FrameRefuses` | common/protocol/Framer.cpp:45-91 | the framer refuses exactly those, with either of its two types allowed, and waits below eight bytes |
| `Framer.FrameEncoded` | common/protocol/Framer.cpp:37-104 | the framer completes on exactly the encoding of a valid message of either expected type |
| `Framer.FrameEncodedPrefix` | common/protocol/Framer.cpp:37-104 | and waits on every strict prefix of it |
| `Framer.MessageArrives` | common/protocol/Framer.cpp:37-104 | wherever a message is cut, the framer is still inside it or exactly past it |
| `Framer.LongNameLeftToCodec` | common/protocol/Framer.h:24-25 | an over-long file name is framed exactly up to 267 bytes, and then always refused by the codec |
| `Framer.Framer.Feed` | common/protocol/Framer.cpp:37-104 | the loop leaves the state and consumes the bytes of the whole-stream definition, never past 285 bytes or the message's end |
| `Framer.Framer.Reset` | common/protocol/Framer.cpp:7-16 | the state is that of a new framer for the given types |
| `SpscRing.SlotCountWithinBudget` | common/util/SpscRingBuffer.cpp:7-16 | the ring stays within its budget exactly when four slots fit, and no further slot would fit below the default count |
| `SpscRing.WrapKeepsSlots` | common/util/SpscRingBuffer.cpp:30-37 | 64-bit index wrap-around keeps slots in place if and only if the slot count divides 2^64 |
| `SpscRing.StepKeepsInv` | common/util/SpscRingBuffer.cpp:24-68 | every load and store of either thread keeps the ring's invariant, with loads that may be out of date |
| `SpscRing.StepRefinesQueue` | common/util/SpscRingBuffer.cpp:24-68 | each step leaves the bounded queue alone, appends while there is room, or removes the oldest entry, which is what the consumer saw |
| `SpscRing.RunIsFifo` | common/util/SpscRingBuffer.cpp:24-68 | in every run: at most the slot count is in use, no slot has two owners, and contents and sizes come out in commit order |
| `SpscRing.FullTestSafe` | common/util/SpscRingBuffer.cpp:24-45 | a producer told "not full" has room, even by an old load; an up-to-date load is exact |
| `SpscRing.SpscRingBuffer.TryAcquire` | common/util/SpscRingBuffer.cpp:24-33 | succeeds exactly while there is room, with the slot behind the published ones |
| `SpscRing.SpscRingBuffer.Commit` | common/util/SpscRingBuffer.cpp:35-40 | appends the first bytes of the lent slot and changes nothing published |
| `SpscRing.SpscRingBuffer.CopyIn` | server/src/session/Session.cpp:307-320 | copying fills slot after slot with the pieces of the payload in order, and stops early only at a full ring |
| `SpscRing.PiecesWhole` | server/src/session/Session.cpp:307-320 | the pieces make up the payload |
| `SpscRing.SpscRingBuffer.TryPeek` | common/util/SpscRingBuffer.cpp:47-57 | gives the oldest entry, exactly when there is one |
| `SpscRing.SpscRingBuffer.Release` | common/util/SpscRingBuffer.cpp:59-63 | removes exactly the oldest entry |
| `LineReassembler.LinesOfEveryCut` | server/src/parser/LineReassembler.h:42-130 | for every stream, every cut and every limit, feeding and finishing report the lines of the stream: text, offset, over-length mark, one report per over-long line, no trailing CR |
| `LineReassembler.LineReported` | server/src/parser/LineReassembler.h:40-99 | a line, wherever it stands in a stream, is reported at its offset, without newline and one carriage return if it fits, cut if it does not |
| `LineReassembler.LineCount` | server/src/parser/LineReassembler.h:40-99 | there are as many lines as newlines, and one more if something follows the last |
| `LineReassembler.CutAnywhere` | server/src/parser/LineReassembler.h:42-89 | feeding two pieces is feeding their concatenation, from any valid state |
| `LineReassembler.AfterValid` | server/src/parser/LineReassembler.h:119-130 | the fragment never outgrows the limit and offsets stay exact |
| `LineReassembler.LineReassembler.Feed` | server/src/parser/LineReassembler.h:42-89 | the loop reports and leaves what the value-level definition says |
| `LineReassembler.LineReassembler.FinishStream` | server/src/parser/LineReassembler.h:91-99 | the unfinished line is reported once |
| `LineReassembler.LineReassembler.AppendTail` | server/src/parser/LineReassembler.h:119-130 | an over-long tail is reported with its first bytes and the rest discarded |
| `Calendar.NextDayIsOneMore` | server/src/parser/LogLineParser.cpp:70-90 | the next calendar day's number is one more, for every valid date of any year |
| `Calendar.DaysOrderDates` | server/src/parser/LogLineParser.cpp:70-78 | day numbers order valid dates chronologically, and equal numbers are equal dates |
| `Calendar.Epoch` | server/src/parser/LogLineParser.cpp:70-78 | day zero is 1 January 1970 |
| `Calendar.HourKeyOrder` | server/src/stats/StatsCollector.cpp:5-8 | the order of packed hour keys is the order of time |
| `LogLineParser.SplitSound` | server/src/parser/LogLineParser.cpp:273-298 | a line that passes the frame stage is an instance of the frame grammar with those parts |
| `LogLineParser.SplitComplete` | server/src/parser/LogLineParser.cpp:273-298 | every instance of the grammar passes, with exactly its parts |
| `LineGrammar.RenderIs` | server/src/parser/LogLineParser.cpp:271-298 | the grammar, spelled out: four bracketed tokens, the separator, the module, colon, space, message |
| `LogLineParser.SaneIffBracketed` | server/src/parser/LogLineParser.cpp:140-160 | the one-pass bracket scan accepts exactly the grammar: nothing nested, empty or unclosed |
| `LogLineParser.IntAccepted` | server/src/parser/LogLineParser.cpp:21-37 | an integer field is accepted exactly when it is all digits and fits 64 bits signed |
| `LogLineParser.TimestampRanges` | server/src/parser/LogLineParser.cpp:110-137 | an accepted timestamp has four-digit year, valid date and hour, and its seconds lie in that hour |
| `FullWindow.StampOnly` | server/src/parser/LogLineParser.cpp:110-137 | every accepted timestamp is the printed form of a valid time of the years 0 to 9999 with six more digits, and read as that time |
| `LogLineParser.FieldPresent` | server/src/parser/LogLineParser.cpp:163-185 | in a sane message the field search fails only where no field starts: its missing-bracket exit is not taken |
| `LogLineParser.AnchorStays` | server/src/parser/LogLineParser.cpp:387-391 | only a fully valid line sets the anchor, and nothing moves it afterwards |
| `LogLineParser.ParsedWithinWindow` | server/src/parser/LogLineParser.cpp:306-312 | every accepted line has a valid date and lies in the 97 hours around the anchor's |
| `LogLineParser.FaultKinds` | server/src/parser/LogLineParser.cpp:314-385 | field checks only ever report number faults |
| `LineGrammar.FieldIsHeld` | server/src/parser/LogLineParser.cpp:163-185 | in a bracketed message a field is what the first bracket holds whose text before it ends in the name at a boundary |
| `LineGrammar.IntFaultIsFlaw` | server/src/parser/LogLineParser.cpp:21-37 | an integer is out of range exactly if its leading digits exceed 9223372036854775807, and otherwise bad exactly if it is not all digits |
| `LineGrammar.ArrowIsPair` | server/src/parser/LogLineParser.cpp:50-67 | the pair rule accepts exactly digits, an arrow, digits |
| `LineGrammar.MessageFaultIsFlaw` | server/src/parser/LogLineParser.cpp:338-385 | for every module the reported fault is the first flaw in the order of the table: its integers, its pair, its finite numbers, each only where present |
| `LineGrammar.DomainStages` | server/src/parser/LogLineParser.cpp:314-336 | header integers, bracket grammar and whitelist fail in that order, each with its reason |
| `LineGrammar.EarlyStages` | server/src/parser/LogLineParser.cpp:251-298 | too long, blank, control characters and no frame fail in that order, each with its reason |
| `LineGrammar.FramedStages` | server/src/parser/LogLineParser.cpp:300-312 | then the timestamp's form and its distance of at most 48 hours from the anchor, and only an accepted line sets the anchor |
| `LineGrammar.AcceptableParsed` | server/src/parser/LogLineParser.cpp:251-396 | a line of the grammar without flaw is accepted under its own module, day, hour and speed |
| `LineGrammar.ParsedAcceptable` | server/src/parser/LogLineParser.cpp:251-396 | and every accepted line is one |
| `LineGrammar.SpeedJudged` | server/src/parser/LogLineParser.cpp:359-385 | a beam-steering line whose first spd holds a token is a sample exactly if that is finite and in range, excluded exactly if finite and out of range, and rejected as BAD_NUMBER if not finite |
| `LineGrammar.NoSpeedJudged` | server/src/parser/LogLineParser.cpp:359-385 | without one it is accepted without a speed |
| `LogLineParser.BracketsSane` | server/src/parser/LogLineParser.cpp:140-160 | the loop computes the scan |
| `LogLineParser.FindField` | server/src/parser/LogLineParser.cpp:163-185 | jumping between occurrences finds the content of the first field that starts at a boundary |
| `LogLineParser.ReadHeader` | server/src/parser/LogLineParser.cpp:274-286 | the loop splits off the four bracketed tokens |
| `LogLineParser.ReadTimestamp` | server/src/parser/LogLineParser.cpp:92-137 | digit loops and range tests decide the timestamp |
| `LogLineParser.LookupModule` | server/src/parser/LogLineParser.cpp:327-334 | finds exactly the whitelisted names |
| `LogLineParser.LogLineParser.ParseLine` | server/src/parser/LogLineParser.cpp:251-396 | verdict, reason and anchor are those of the stage-by-stage definition |
| `StatsCollector.RecordKeepsConsistent` | server/src/stats/StatsCollector.cpp:41-67 | an accepted line adds exactly one count, a refused one changes nothing, and speed samples add up to the beam-steering count |
| `StatsCollector.RecordCounts` | server/src/stats/StatsCollector.cpp:41-67 | an accepted line raises the count of its own hour of its own module by one and no other |
| `StatsCollector.RecordSpeeds` | server/src/stats/StatsCollector.cpp:55-65 | a speed in range is appended and counted, one out of range excluded, a beam-steering line without one missing |
| `StatsCollector.RefusedIff` | server/src/stats/StatsCollector.cpp:41-53 | exactly a new hour beyond ten thousand is refused |
| `Counting.HourCounts` | server/src/stats/StatsCollector.cpp:41-67 | for every payload, module, day and hour the count is the number of its lines that are accepted for them |
| `Counting.SpeedCounts` | server/src/stats/StatsCollector.cpp:55-65 | for every payload the samples are the speeds in range in order, and the other two counters the lines out of range and without a speed |
| `Counting.ReasonCounts` | server/src/parser/SkipReporter.cpp:33-46 | for every payload each reason's counter is the number of lines rejected for it |
| `Counting.LineTotals` | server/src/parser/ParserThread.cpp:197-206 | and the totals are the numbers of lines and of rejected lines |
| `StatsCollector.BucketBound` | server/src/stats/StatsCollector.cpp:41-53 | at most 97 hour buckets per module |
| `StatsCollector.NeverRefused` | server/src/stats/StatsCollector.cpp:46-49 | at most 485 entries, so no parsed line meets the map limit |
| `FullWindow.BoundAttained` | server/src/stats/StatsCollector.h:16-18 | the 485 entries are reached: around every anchor that leaves 48 hours of years 0 to 9999 on either side there is a file, of at most 33,048 bytes and with no line over 67, whose lines fill all 97 hours of all five modules |
| `FullWindow.LineParsed` | server/src/parser/LogLineParser.cpp:251-396 | a line printed for any module and time of those years, within 48 hours of the anchor, is accepted under that module, date and hour |
| `StatsCollector.KeyRoundTrip` | server/src/stats/StatsCollector.cpp:5-14 | unpacking an hour key gives back its date and hour |
| `StatsCollector.LabelOfTimestamp` | server/src/stats/StatsCollector.cpp:10-31 | the printed hour is the timestamp's own date and hour text |
| `StatsCollector.FormatHourKey` | server/src/stats/StatsCollector.cpp:10-31 | the digit loops print that label |
| `StatsCollector.StatsCollector.TotalEntries` | server/src/stats/StatsCollector.cpp:33-39 | sums the sizes of all buckets |
| `StatsCollector.StatsCollector.RecordLine` | server/src/stats/StatsCollector.cpp:41-67 | one line's effect on buckets and samples, and the refusal at the limit |
| `StatsCollector.StatsCollector.Reset` | server/src/stats/StatsCollector.cpp:76-84 | everything is back to empty |
| `SkipReporter.SameName` | server/src/parser/SkipReporter.cpp:48-66 | for every line rejected as UNKNOWN_MODULE the reporter's own search finds the parser's module token, cut at 64 bytes, and escaping leaves it alone |
| `SkipReporter.RecordKeepsConsistent` | server/src/parser/SkipReporter.cpp:33-46 | reason counts add up to the total, listed and unlisted names to the unknown-module count, and the caps hold; only the given reason moves |
| `SkipReporter.UnlistedMeansFull` | server/src/parser/SkipReporter.cpp:68-77 | a found name stays unlisted only because fifty others are listed |
| `SkipReporter.EscapePrintable` | server/src/parser/SkipReporter.cpp:14-29 | escaped text has no control characters |
| `Reporting.EscapeReadsBack` | server/src/parser/SkipReporter.cpp:14-29 | escaped text reads back as the text exactly if that contained nothing that looks like an escaped control character |
| `Reporting.EscapeAmbiguous` | server/src/parser/SkipReporter.cpp:14-29 | otherwise two texts can be escaped alike |
| `Reporting.SamplesOf` | server/src/parser/SkipReporter.cpp:33-46 | for every payload sample k is the k-th rejected line's reason, offset and first 200 bytes, escaped, up to the hundredth |
| `Reporting.NamesOf` | server/src/parser/SkipReporter.cpp:51-78 | for every payload a listed name has as many lines as it is credited with, all others are counted together, and only fifty listed ones keep a name out |
| `SkipReporter.EscapeNonPrintable` | server/src/parser/SkipReporter.cpp:14-29 | the loop escapes byte by byte |
| `SkipReporter.SkipReporter.RecordSkip` | server/src/parser/SkipReporter.cpp:33-46 | one rejected line's effect on counters, names and samples |
| `SkipReporter.SkipReporter.Reset` | server/src/parser/SkipReporter.cpp:138-144 | everything is back to empty |
| `Analysis.FeedAppend` | server/src/parser/ParserThread.cpp:190-207 | analysing two slots is analysing their concatenation |
| `Analysis.CutsIrrelevant` | server/src/parser/ParserThread.cpp:190-229 | however the payload was cut into slots, finishing builds the result of the lines of the whole payload |
| `Analysis.LinesBalanced` | server/src/parser/ParserThread.cpp:197-226 | every sequence of lines keeps all sums and caps, and counts each line once |
| `Analysis.ResultIdentities` | server/src/parser/ParserThread.cpp:197-226 | for every payload: lines are counted or skipped, reasons add up, names add up, speed samples add up, at most 485 entries, MAP_LIMIT never occurs, and unlisted names mean fifty listed ones |
| `Analysis.Analyzer.FeedChunk` | server/src/parser/ParserThread.cpp:197-206 | the four objects together take a slot as the value-level analysis does |
| `Analysis.Analyzer.FinishSession` | server/src/parser/ParserThread.cpp:216-255 | builds that result with its checksum and leaves the initial state |
| `Analysis.Analyzer.ResetSessionState` | server/src/parser/ParserThread.cpp:257-267 | every object is back in its initial state |
| `CsvBuilder.CellsExact` | server/src/stats/StatsCollector.h:45-60 | exactly the counted hours are listed, each with its count |
| `CsvBuilder.CellsOrdered` | server/src/stats/StatsCollector.h:45-60 | the file's listing is strictly ordered by module name and time |
| `CsvBuilder.CellsComplete` | server/src/stats/StatsCollector.h:45-60 | and leaves no counted hour of any module out |
| `CsvBuilder.Fixed6Value` | server/src/csv/CsvBuilder.cpp:16-39 | the printed six decimals are the rounded value, also where rounding carries into the units |
| `CsvBuilder.CollectReasons` | server/src/csv/CsvBuilder.cpp:76-85 | collects exactly the reasons that occurred |
| `CsvBuilder.BuildResultCsv` | server/src/csv/CsvBuilder.cpp:43-97 | appending in loops builds the file row by row as defined |
| `ResultTable.MetricsRead` | server/src/csv/CsvBuilder.cpp:64-71 | for every payload the file gives one value for each fixed metric: lines, average text, speeds in range, out of range and missing, and rejected lines |
| `ResultTable.ReasonRead` | server/src/csv/CsvBuilder.cpp:73-95 | and for a reason, spelled out, its number of lines, exactly if it occurred |
| `ResultTable.HourRead` | server/src/csv/CsvBuilder.cpp:49-59 | and a row for a module and an hour of a day, with the number of accepted lines, exactly if there were any |
| `ResultTable.RowIsHour` | server/src/csv/CsvBuilder.cpp:49-59 | and no other row in that block |
| `ResultTable.MetricsOrdered` | server/src/csv/CsvBuilder.cpp:64-95 | the fixed metrics come in their order and the reasons by spelling |
| `ResultSize.ResultFits` | common/protocol/protocol.h:83-95 | the result of every payload of admissible size is at most 28,785 bytes, so the client's limit never refuses one |
| `ResultSummary.SummarizeResultCsv` | client/src/service/ResultSummary.cpp:47-116 | the scanning loop computes the row-by-row definition on every input |
| `ResultSummary.SummaryOfCsv` | client/src/service/ResultSummary.cpp:47-116 | reading what the server built recovers total, skipped and exactly the reasons that occurred, by count and then code |
| `ResultSummary.OrderIrrelevant` | client/src/service/ResultSummary.cpp:78-90 | permuting metric rows and adding rows with other names changes nothing, if total and skipped lines are given at most once |
| `ResultSummary.ShuffledFile` | client/src/service/ResultSummary.cpp:78-90 | so the server's file, with its metric rows in any order and rows of other names among them, has the summary of the file as built |
| `ResultSummary.DuplicatesMatter` | client/src/service/ResultSummary.cpp:78-90 | with two totals the order matters: the last one counts |
| `ResultSummary.SummaryOrdered` | client/src/service/ResultSummary.cpp:106-114 | the reasons of any file come by count, largest first, then by code |
| `ResultSummary.BlanksIgnored` | client/src/service/ResultSummary.cpp:67-90 | blanks around name and value and a final carriage return do not matter |
| `ResultSummary.SkippedFromReasons` | client/src/service/ResultSummary.cpp:96-104 | without a count of skipped lines the sum of the reasons is taken |
| `Readback.SummaryOfAnalysis` | client/src/service/ResultSummary.cpp:47-116 | for every payload the client reads back its number of lines, how many were skipped and why, and the sums agree |
| `Reception.ReadUpload` | server/src/session/Session.cpp:143-369 | header, payload and trailer as a client sends them are read as that upload |
| `Reception.ReadPrefix` | server/src/session/Session.cpp:143-369 | and no strict prefix of them is |
| `Reception.ReadGrows` | server/src/session/Session.cpp:143-369 | once decided, more input changes nothing |
| `Reception.RequestDecodes` | server/src/session/Session.cpp:242-252 | a framed request decodes or has a field out of range, so the silent close after it is not reached |
| `PipelineRing.AccessIsQueue` | common/util/SpscRingBuffer.cpp:24-68 | publishing a slot is the queue's append, freeing one its removal, and up-to-date index tests are its full and empty tests; old ones err only by "full" and "empty" |
| `PipelineRuns.StepKeepsCore` | server/src/session/Session.cpp:126-536 | every step of either thread and every event keep the part of the invariant that concerns streams, answers, backpressure and lifecycle, teardown at any moment included |
| `PipelineRuns.StepKeeps` | server/src/parser/ParserThread.cpp:97-271 | and the part that says the parser works for the session that is there, unless a session is torn down while ANALYZING |
| `PipelineRuns.RunCore` | server/src/session/Session.cpp:126-536 | the first part holds in every state of every run |
| `PipelineRuns.RunInv` | server/src/parser/ParserThread.cpp:153-255 | both hold in every state of every tame run |
| `PipelineOwn.TrackingStep` | server/src/parser/ParserThread.cpp:190-214 | payload committed is payload analysed plus what is in the ring, at every parser step |
| `PipelineSteps.ParserStepFlow` | server/src/parser/ParserThread.cpp:207-271 | a release hands the wake-up on: full ring, then flag test, then signal; so does a reset |
| `PipelineSteps.CallKeeps` | server/src/session/Session.cpp:417-447 | every statement of applyBackpressure and resumeReading keeps the invariant at whatever point they were called |
| `PipelineSession.RoundFits` | server/src/session/Session.cpp:169-240 | one round of the loop over a chunk keeps the session's account of its input, in every phase |
| `PipelineSession.TrailerFits` | server/src/session/Session.cpp:325-344 | so does consuming trailer bytes, complete or not |
| `PipelineSession.VerdictFits` | server/src/session/Session.cpp:343-356 | the trailer decides as the whole stream does |
| `PipelineSession.RequestFits` | server/src/session/Session.cpp:242-279 | a result request leads to the reply that the kept result demands, or to the refusal it demands, and never counts as an upload |
| `PipelineCallbacks.CopyHasRoom` | server/src/session/Session.cpp:293-323 | the transition chunk fits one slot and finds the ring empty, so the "ring slot unavailable" teardown is not reached |
| `PipelineOwn.AcceptTied` | server/src/session/SessionManager.cpp:104-142 | a connection is only ever accepted on a pristine parser |
| `PipelineOwn.CompletionIsFor` | server/src/session/Session.cpp:383-406 | a completion signal is always for the live session that waits for it, and the mailbox holds the analysis of its payload |
| `PipelineEvents.CleanupKeeps` | server/src/session/Session.cpp:520-536 | teardown, at any moment, raises one abort and leaves everything else in order |
| `PipelineResults.ResultIsOwn` | server/src/parser/ParserThread.cpp:153-255 | in every tame run a session that is sent a result after its upload gets the analysis of its own payload, with matching header, after Ack(OK) |
| `PipelineResults.BeginsPristine` | server/src/session/SessionManager.cpp:86-142 | in every tame run, wherever a session begins, ring, reassembler, anchor, statistics, report and line count are initial and nothing is pending |
| `PipelineBackpressure.BackpressureNeverStalls` | server/src/session/Session.cpp:417-447 | in every run a paused upload outside applyBackpressure has a full ring, a pending signal, or a parser about to find the flag set, after a release or at the end of a reset |
| `PipelineBackpressure.EveryScheduleWakes` | server/src/parser/ParserThread.cpp:190-271 | in every continuation of every run, whatever happens in between, a paused upload is over or its wake-up is with the loop after at most twenty of the parser's steps and one for each slot |
| `PipelineBackpressure.PausedUploadResumes` | server/src/parser/ParserThread.cpp:190-271 | and from every paused state of every run the parser's own steps and the handling of the signal they raise make the socket read again |
| `PipelineBackpressure.SlotAlwaysFree` | server/src/session/Session.cpp:126-141 | in every run a read with payload outstanding always finds a free slot; the copying path runs at most once and never finds the ring full |
| `PipelineBackpressure.ReadsUnlessPaused` | server/src/session/Session.cpp:434-447 | in every run only a full ring during an upload, or a refusal, keeps a live session from reading between callbacks |
| `PipelineGate.EveryScheduleOpens` | server/src/parser/ParserThread.cpp:167-178 | in every continuation of every run with a teardown pending, whatever happens in between, the accept gate opens and then its signal is sent, by the parser's 22nd step and one more for each slot |
| `PipelineGate.NoneForgotten` | server/src/session/SessionManager.cpp:87-142 | in every run, while a connection waits in the backlog there is a session, the gate is shut or just opened, its signal is pending, or the loop is asking the listener |
| `PipelineGate.WaitingIsAccepted` | server/src/session/SessionManager.cpp:104-142 | from every state of every run in which only the gate keeps a connection waiting, the parser's own steps and the handling of their signal get it accepted |
| `PipelineEndings.TornDownIff` | server/src/session/Session.cpp:171-536 | in every run, between callbacks, a session is torn down exactly if its connection failed, its client sent eight bytes after the result, its refusal has gone out, its stream opens or closes with a bad preamble, or too much was sent |
| `PipelineEndings.ConfirmationEnds` | server/src/session/Session.cpp:449-461 | a session in WAIT_DONE has read a strict prefix of a confirmation: what completes or breaks it ends the session |
| `PipelineEndings.NextClientAccepted` | server/src/session/SessionManager.cpp:104-142 | from every state of every run in WAIT_DONE the confirmation leads to the next client being accepted |
| `PipelineEndings.RefusalClosesLater` | server/src/session/Session.cpp:496-513 | a refusal is queued, reading stops, and the session stays until it has gone out |
| `PipelineProgress.EveryScheduleCompletes` | server/src/parser/ParserThread.cpp:180-255 | in every continuation of every tame run in which a session waits in ANALYZING, whatever happens in between, the session has moved on or is gone, or its own analysis is in the mailbox with the signal pending, by the parser's 14th step and ten more for each slot |
| `PipelineTheorems.SegmentationIrrelevant` | server/src/session/Session.cpp:143-369 | between callbacks, verdict, payload and checksum are those of the stream, for every stream, segmentation and interleaving, in every run |
| `PipelineTheorems.ValidUpload` | server/src/session/Session.cpp:293-369 | for header, payload and trailer, whatever follows them: exactly the payload is committed and counted, and the answer is Ack(OK) if and only if the trailer carries its checksum, else Ack(CRC_MISMATCH) |
| `PipelineTheorems.RequestsAnswered` | server/src/session/Session.cpp:242-291 | in every run a stream that opens with a request is answered as the kept result demands: header and rest of the file, NO_SUCH_RESULT exactly if name, size and checksum do not match, PROTOCOL_ERROR exactly for a bad field or an offset beyond the file |
| `PipelineTheorems.OutboxForms` | server/src/session/Session.cpp:343-415 | in every run what a session has sent is a prefix of one refusing Ack, of Ack(OK), header and file, or of header and rest of file |
| `PipelineTheorems.SentStays` | server/src/session/Session.cpp:463-536 | no step takes back what was sent, only a live session sends, and a refusal or resumption stands |
| `PipelineTheorems.AnswersOnlyTrustedStreams` | server/src/session/Session.h:31-33 | in every run nothing is ever sent on a stream with bad magic, version or type; a session that refused a stream and is still there has answered NO_SUCH_RESULT to a request nothing kept matches, and PROTOCOL_ERROR to everything else |
| `PipelineTheorems.WaitDoneEntry` | server/src/session/Session.cpp:463-477 | at the entry to WAIT_DONE nothing is outstanding exactly if the rest asked for was empty; after an upload one or two messages always are |
| `PipelineTheorems.BytesAfterTrailer` | server/src/session/Session.cpp:143-195 | bytes after the trailer are dropped exactly if the chunk with the trailer's end began inside the payload; else they end the session while ANALYZING |
| `PipelineResults.RetainedIsFiled` | server/src/session/Session.cpp:383-399 | in every run the kept result is filed under name, size and checksum of the last upload served, which in some state of that run a live session has verified, and carries its own checksum |
| `PipelineResults.RetainedIsServed` | server/src/session/SessionManager.cpp:148-154 | in every tame run it is the analysis of that upload |
| `PipelineResults.RequestsServed` | server/src/session/SessionManager.cpp:156-170 | so a request is answered with the analysis of a payload of the name, size and checksum asked for, from the offset asked for, and refused exactly as the last upload served demands |
| `PipelineTheorems.TimerAndTeardown` | server/src/session/Session.cpp:78-119 | in every run the timer runs exactly in the four phases that wait for the peer; each torn-down session raised exactly one abort |
| `PipelineTheorems.TeardownIsFinal` | server/src/session/Session.cpp:520-536 | in every run no event changes a torn-down session any more |
| `TornSession.WrongResult` | server/src/parser/ParserThread.cpp:167-178 | without the hypothesis: a run in which a verified upload is handed the result of the empty upload torn down before it, which differs from its own |
| `TornAlways.TeardownLeaks` | server/src/parser/ParserThread.cpp:167-187 | every tame run that reaches a teardown in ANALYZING goes on to one in which the next client, with a file of another number of lines, is handed the result of the one torn down |
| `PipelineProgress.Completes` | server/src/parser/ParserThread.cpp:180-255 | from every state in which a session waits for its result the parser's own steps put it in the mailbox |
| `Disagreements.AckEntersWaitDone` | server/src/session/Session.cpp:463-477 | a run in which the acknowledgement's completion enters WAIT_DONE with header and file outstanding |
| `Disagreements.CutDecides` | server/src/session/Session.cpp:143-195 | one stream with bytes after the trailer, cut in two ways: torn down, and analysed |
| `Mistaken.LaterAnswersForBoth` | server/src/session/SessionManager.cpp:156-170 | for any two payloads of one name, size and CRC-32, a tame run in which the first client's request, from any offset, is answered with the rest of the second's analysis |
| `TornSession.Discards` | server/src/parser/ParserThread.cpp:167-178 | the abort branch resets everything and clears the abort flag, and the upload flag stays set |
| `ResultClient.TransferService.OnRead` | client/src/service/TransferService.cpp:471-500 | the loop over a piece of the server's stream handles message after message as defined |
| `ResultClient.TransferService.HandleAckBytes` | client/src/service/TransferService.cpp:502-553 | only Ack(OK) creates a claim, at offset zero; anything else fails the session |
| `ResultClient.TransferService.HandleResultHeaderBytes` | client/src/service/TransferService.cpp:555-576 | a header starts the file afresh |
| `ResultClient.TransferService.BeginCsvReceive` | client/src/service/TransferService.cpp:580-623 | oversized or shrunken results are refused before anything is stored |
| `ResultClient.TransferService.HandleCsvBytes` | client/src/service/TransferService.cpp:625-648 | takes no more than announced and keeps the claim's count in step |
| `ResultClient.TransferService.CompleteDownload` | client/src/service/TransferService.cpp:650-710 | hands the file over and drops the claim only if the checksum is right, else starts over; a confirmation that cannot be sent fails the session after that |
| `ResultClient.TransferService.HandleResumeReplyBytes` | client/src/service/TransferService.cpp:749-795 | a refusal costs claim and fragment, a header resumes the fragment |
| `ResultClient.TransferService.FailSession` | client/src/service/TransferService.cpp:797-815 | the fragment is kept exactly when there is a claim to resume it under |
| `ClientRules.AckAnswered` | client/src/service/TransferService.cpp:502-553 | after an upload only status OK gives a claim, from offset zero; every other status ends the session |
| `ClientRules.HeaderAnswered` | client/src/service/TransferService.cpp:555-623 | a result beyond 4 MiB is refused before anything is stored |
| `ClientRules.ReplyAnswered` | client/src/service/TransferService.cpp:749-795 | and so is, on resumption, one shorter than what is there |
| `ClientRules.RequestRefused` | client/src/service/TransferService.cpp:749-795 | a refused request costs claim and fragment, whatever the status |
| `ClientRules.ChecksumDecides` | client/src/service/TransferService.cpp:625-701 | the checksum decides whether the file is handed over, and a claim on a wrong one starts over |
| `ClientRules.AnyBytes` | client/src/service/TransferService.cpp:471-500 | whatever bytes a server sends, a file is handed over only with the size and checksum announced for it |
| `ClientRules.AnyServer` | client/src/service/TransferService.cpp:471-815 | over the client's whole life with any servers a claim counts the bytes held, and no more than 4 MiB are kept |
| `Resume.ResumptionCorrect` | client/src/service/TransferService.cpp:502-815 | for every admissible upload, through any cuts, reconnections and requests, in any pieces: a claim counts the bytes held, which are a prefix of the analysis, and a completed client holds exactly it |
| `Resume.DeliveryCompletes` | client/src/service/TransferService.cpp:712-795 | one uninterrupted delivery completes the download wherever the earlier ones broke off, for every admissible upload |
| `Resume.OnBytesRefused` | client/src/service/TransferService.cpp:749-773 | a refusal, in any pieces, ends the session without claim and fragment |
| `Resume.RequestAnswered` | server/src/session/Session.cpp:242-291 | the reply to the client's request is the header and exactly the bytes it is missing |
| `EndToEnd.RequestPeer` | server/src/session/Session.cpp:242-291 | a session that reads the client's request sends a prefix of the header and the missing bytes of the client's own result, or of a refusal, and nothing else |
| `EndToEnd.UploadPeer` | server/src/session/Session.cpp:343-415 | a session that reads the client's upload sends a prefix of acknowledgement, header and its analysis, and only once it has verified it |
| `EndToEnd.ClientHoldsAnalysis` | client/src/service/TransferService.cpp:650-701 | a client of a tame run, among any others, reading the sessions' bytes in any pieces through any cuts and requests: when it completes it holds the analysis of the file it uploaded, which a session of the run has verified, and reads its number of lines out of it |
| `EndToEnd.AllReadCompletes` | client/src/service/TransferService.cpp:625-701 | and it completes once it has read all that the session sends |

## Left out

- libuv handles, sockets, listener and timer wrappers: they are the environment's events; starting and stopping to read succeed, no read arrives after stopping, sends complete in order.
- Session, SessionManager and ParserThread as objects: they are a step system over values, which captures the order of every access but not update in place and aliasing.
- Weak memory: flags and indices are sequentially consistent; only the ring's own steps allow loads that are out of date.
- Floating point: whether a token is a finite number and in range, and the mean as whole units and rounded millionths, are function parameters; the running sum is the list of its summands.
- Integer widths: sizes and counters are unbounded, with the 64-bit limits written out where the source checks or prints them; `SpscRing.WrapKeepsSlots` covers index wrap-around.
- PipelineResults.ResultIsOwn: holds for runs that tear no session down while ANALYZING, for the reason `TornAlways.TeardownLeaks` gives; so do the other theorems of that module and of `EndToEnd`.
- EndToEnd.ClientHoldsAnalysis: two payloads of the same name, size and CRC-32 that are both served in the run are outside it, since the protocol cannot tell them apart: `Mistaken.LaterAnswersForBoth`.
- Resume.ResumptionCorrect: a result request is issued only while nothing is expected and on an unused connection, and the kept result does not change meanwhile; `EndToEnd.ClientHoldsAnalysis` lets other clients replace it.
- PipelineBackpressure.EveryScheduleWakes: brings the wake-up to the loop; that the loop gets round to handling it is left to its event loop. So do `PipelineProgress.EveryScheduleCompletes` and `PipelineGate.EveryScheduleOpens`.
- PipelineGate.NoneForgotten: a run's backlog counts connections less accepts, and in the runs it speaks of the loop never finds the gate open, no session there and a connection waiting without accepting it.
- Shutdown: the stop flag, closing the listener and joining the parser thread; and failures of starting to read.
- Time: timers fire at any moment they are armed; no duration is modelled.
- Client upload side, file reader and progress reporting; logging, daemon, configuration and command line.
- Writing the report and the CSV file to disk, the warning text shown to the user, and the user interface.
