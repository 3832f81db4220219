# HermitDB: a verified model

HermitDB is a small Redis-like server: a RESP2 parser and event loop in front of a
keyspace of strings and lists with TTLs, a write-ahead log (WAL), a snapshot format, and a
mode in which several reactor threads share the keyspace under one lock. This project models
that logic in Dafny and proves what it guarantees about every input, every run, every I/O
outcome and every schedule. `dafny verify dfyconfig.toml` checks all of it.

## What is proved

The main results, and where they are:

- **Recovery** (`Recovery`, `Restarts`). Replaying the log of any run of commands, lazy
  evictions and active cycles at a later clock gives the live keyspace and deadlines without
  the keys that are dead by then, *exactly when* no logged command was a hazard: an
  INCR/DECR/INCRBY, a push, a PERSIST, or a re-arming past the recovery clock, that succeeded
  on a key whose deadline is at or before the recovery clock. `HazardExample` is a concrete
  run on which recovery goes wrong, `RecoveryExact` the if-and-only-if over every run, and
  `RestartsRecover` extends it over any number of restarts on the same log, each after a crash.
- **Durability** (`Server`, `Cuts`, `Durability`, `EverySecond`). In every reachable state the log file is its
  complete records followed by a cut record only after a failure has latched; after a crash
  that keeps at least the synced bytes, replay delivers everything owed up to any point where
  the log was fully synced (under the `always` policy: every command that got its reply), and
  the recovered state is that of a definite shorter run: some first events, and at most a
  smaller event in place of the one the crash cut in two. Under `everysec` a crash loses nothing
  that was written a second or more before the last maintenance tick. Once an append or fsync
  fails, every later command is refused and the log is never touched again.
- **What clients see** (`Replies`, `SetWords`, `Sessions`): for every command the bytes of its reply
  and what they say about the key; and over whole runs, what was stored is read back until the
  key is written or its deadline comes, deadlines are what TTL counts down to, increments add up,
  and a list used as a queue gives every value back once and in order.
- **Eviction timing is unobservable** (`Laws`, `Transparency`): two runs of the same commands
  at the same clock readings, with any active cycles in between, get the same replies.
- **Framing** (`RespParser`, `WalFormat`, `Wal`): parsing does not depend on how the bytes are
  cut into chunks (with the exact condition), inverts the record encoding under any chunking,
  and recovers exactly the complete records of a log cut at any byte.
- **Request text** (`Lines`): what blank lines, typed lines and array frames of any spelling mean,
  whatever follows them, and which of them are refused with which error.
- **Glob matching** (`Glob`, `Patterns`): the iterative matcher with one backtracking point decides
  the declarative "a star matches any substring" meaning, and a law for every way a pattern can
  begin says what its text means.
- **Shared keyspace** (`Shard`): every interleaving of the threads' lock, load, store and unlock
  steps is the sequential run in lock order, and no increment is lost.
- **Reply stream** (`Stream`, `EventLoop`): for every split of reads and writes, what the socket
  has taken and what waits are the handler's answers to the commands of the bytes the socket
  has handed over, in order, protocol errors included; a connection is closed exactly when it
  hung up or is finished, and otherwise watched for room exactly when something is left to send;
  and the exact condition under which a connection is read again after a protocol error.
- **Limits of the log** (`WalFormat`, `Limits`): a log reads back exactly when every record is within
  the limits replay enforces; commands that come as arrays are, and an inline one that is not is
  run, acknowledged and logged, and makes replay refuse the log.
- **Dense TTL table, snapshot codec** (`Expiry`, `Snapshot`).

## How the model is built

`Keyspace`, `Commands` and `Execution` give each command its meaning on values: a store of two
maps, and for a one-key command a step on that key's cell. `Server` is the whole server as a
state machine whose steps carry the outcome of every append and fsync. The objects of the
source are classes whose methods update their fields in place (`Db`, `Expiry`, `RespParser`,
`Wal`, `Dispatcher`, `Snapshot`, `EventLoop`), and each method is proved to do what the value
semantics says, for every outcome of the I/O it performs. What the environment does is kept by
objects of its own, which only their own methods change: the log file, its failures and the clock
(`LogFiles`), a connection's socket and its use of the command handler, the kernel's readiness
set and the accept queue (`Sockets`), the random number generator and the time budget (`Expiry`). In particular
`CommandDispatcher.Execute` and `.Tick` are steps of the state machine, so the theorems about
all runs of the machine are about them.

The code and the design notes disagree in two places, and the model follows the code. The
comments at `src/core/commands.cpp:415-416` call verbatim records deterministic on replay
given the same preceding state; that state is not the same once a TTL has run out before
recovery, which is what the hazard condition captures (`DECISIONS.md:24-26` leaves
TTL-dependent histories open). And `src/protocol/resp_parser.h:51-52` says that `feed` is not
called again after a protocol error, while `src/net/event_loop.cpp:131-164` keeps reading from
a connection whose error reply could not be sent at once: `Stream.FedAgainExample` is an input
on which a command is run after the error, and `Stream.FedAgainAfterError` says exactly when
the connection stays registered.

Assumptions that appear as hypotheses: a deadline a command arms fits an int64 (`Fits`); every
record stays within the limits replay accepts (`Encodable`: 1 to 1,048,576 arguments, each at
most 512 MiB less 2 bytes); one clock reading per command; the hash map's iteration order is a
parameter (`order`), any enumeration of the keys. A client can break the second one: an inline
command has no argument limit, so `RPUSH k x x ...` with more than 1,048,576 words is run, answered
and logged (`Limits.OverLimitExample`), and a frame limit configured above 512 MiB admits larger
arguments. `WalFormat.LogReadsBack` is the exact condition on the log, `Limits.LimitsSuffice` derives
it from the commands the clients send, and `Limits.ArraysAreWithin` says which of them it holds for.

## Model

| member | source | states |
|---|---|---|
| `Decimal.PrintParse` | src/core/commands.cpp:59-65 | parsing a printed integer gives it back exactly when it is an int64, and fails otherwise |
| `Decimal.ToStringInjective` | src/protocol/resp_writer.cpp:23 | different integers print differently |
| `Decimal.ParseMeans` | src/core/commands.cpp:58-65 | exactly the decimal spellings of int64s are read as integers: zeros may come first, and a minus sign before a number that is not positive |
| `RespWriter.IntegerInjective` | src/protocol/resp_writer.cpp:23 | integer replies have equal bytes exactly when the numbers are equal |
| `RespWriter.IntegerLiterals` | src/core/commands.cpp:399-414 | the reply literals the log decision compares with are the replies 0 and 1 |
| `RespWriter.BulkIsNotNull` | src/protocol/resp_writer.cpp:25-36 | no payload makes a bulk reply look like the null bulk |
| `RespParser.NewlineAt` | src/protocol/resp_parser.cpp:35-43 | the index of the first newline: none before it, and one there unless there is none at all |
| `RespParser.WordsOfJoin` | src/protocol/resp_parser.cpp:45-54 | words joined by single spaces split into exactly those words |
| `RespParser.StepExtend` | src/protocol/resp_parser.cpp:62-126 | a move of the parse loop is not changed by bytes that arrive later |
| `RespParser.RunSplit` | src/protocol/resp_parser.cpp:56-142 | parsing a concatenation is parsing the first part and resuming from its residue with the second |
| `RespParser.FeedThen` | src/protocol/resp_parser.cpp:56-142 | feeding two chunks, the first of which parses, is feeding their concatenation, errors included |
| `RespParser.PiecewiseIsWhole` | src/protocol/resp_parser.cpp:56-142 | if every piece parses, one feed of the whole gives the same commands and the same residual state |
| `RespParser.WholeIsPiecewise` | src/protocol/resp_parser.cpp:56-142 | if the whole parses and no cut leaves more than the frame limit waiting, every chunking gives the same result |
| `RespParser.ChunkIndependence` | src/protocol/resp_parser.cpp:56-142 | a chunking parses if and only if the whole does and no cut leaves more than the frame limit waiting |
| `RespParser.RunBounded` | src/protocol/resp_parser.cpp:62-126 | whatever bytes arrive, declared counts, lengths and stored arguments stay within the limits |
| `RespParser.FeedBounded` | src/protocol/resp_parser.cpp:127-141 | after a feed the retained frame is within the limits; after a successful one so are the retained bytes, and the loop has nothing left to do |
| `RespParser.RespParser.TakeLine` | src/protocol/resp_parser.cpp:35-43 | takes the bytes up to the first newline, without a trailing carriage return, and moves the cursor past it; otherwise moves nothing |
| `RespParser.RespParser.SplitInline` | src/protocol/resp_parser.cpp:45-54 | the maximal space-free runs of the line, in order |
| `RespParser.RespParser.LineTurn` | src/protocol/resp_parser.cpp:63-88 | one loop iteration between frames is one step of the machine |
| `RespParser.RespParser.HeadTurn` | src/protocol/resp_parser.cpp:90-113 | one loop iteration at a bulk header is one step of the machine |
| `RespParser.RespParser.BodyTurn` | src/protocol/resp_parser.cpp:116-126 | one loop iteration at a payload is one step of the machine, whatever bytes the payload holds |
| `RespParser.RespParser.ParseLoop` | src/protocol/resp_parser.cpp:62-126 | the loop of turns is the whole parse: the commands and the residue where it is stuck, or the error and the position it leaves |
| `RespParser.RespParser.FeedChunk` | src/protocol/resp_parser.cpp:56-142 | the buffered parser returns the commands or the error of the whole unconsumed input, and keeps the residue, also after an error |
| `Lines.BlankLine` | src/protocol/resp_parser.cpp:63-66 | an empty line, or one of spaces and tabs, ended either way, yields no command and no error, and parsing goes on after it |
| `Lines.TypedLine` | src/protocol/resp_parser.cpp:83-87 | a typed line yields exactly its words, however they are spaced and however the line ends, and parsing goes on after it; only a star in the first column makes it something else |
| `Lines.ArrayHeader` | src/protocol/resp_parser.cpp:68-81 | a star and any text: an array of that many, nothing for a count of 0 or less, an error for anything else or too many |
| `Lines.BulkHeader` | src/protocol/resp_parser.cpp:96-113 | where a bulk string is due: which header lines open a payload, and which error the others get |
| `Lines.BulkPayload` | src/protocol/resp_parser.cpp:116-126 | a payload is any bytes of the announced length, and is refused unless CRLF follows |
| `Lines.ArrayFrame` | src/protocol/resp_parser.cpp:62-126 | an array yields exactly its payloads, however its numbers are spelled and its header lines end, and parsing goes on after it |
| `Lines.EndlessLine` | src/protocol/resp_parser.cpp:128-134 | a line without an end waits within the frame limit and is refused beyond it |
| `WalFormat.RunRecord` | src/persist/wal.cpp:50-58 | parsing an encoded record followed by anything yields the record and goes on with the rest |
| `WalFormat.RunRecords` | src/persist/wal.cpp:50-58 | the same for any list of records |
| `WalFormat.RecordCut` | src/persist/wal.cpp:139-145 | a record cut at any byte looks incomplete: no error and no command |
| `WalFormat.CompleteInIsLargest` | src/persist/wal.cpp:122-149 | the number of complete records is the largest whose encoding fits in the bytes that are there |
| `WalFormat.TornTail` | src/persist/wal.cpp:112-170 | any byte prefix of a log parses to exactly its complete records, whose encoding it starts with |
| `WalFormat.RoundTrip` | src/persist/wal.cpp:50-58 | encoded records, cut into any chunks, parse back to exactly those records with nothing left over |
| `WalFormat.RecordRefused` | src/protocol/resp_parser.cpp:70-109 | a record outside the limits is refused, whatever follows it |
| `WalFormat.LogReadsBack` | src/persist/wal.cpp:112-170 | a log reads back as its records if and only if every record is within the limits |
| `WalFormat.RunFrames` | src/protocol/resp_parser.cpp:62-126 | whatever bytes arrive, a command that came as an array is within the frame limits; any other was typed inline |
| `WalFormat.InlineParses` | src/protocol/resp_parser.cpp:83-87 | an inline line is parsed into its words, however many there are |
| `Glob.ConsumeUnits` | src/core/db.cpp:9-51 | star-free tokens consume exactly one character each |
| `Glob.LatestStarSuffices` | src/core/db.cpp:53-79 | if resuming an earlier star later would succeed, so does letting the latest star absorb more |
| `Glob.NoRetryAtEnd` | src/core/db.cpp:55-79 | once the string is used up no later resumption of the star can succeed |
| `Glob.MatchesEmpty` | src/core/db.cpp:77-78 | the empty string matches exactly the patterns made of stars |
| `Glob.StarMatchesAll` | src/core/commands.cpp:202-209 | the pattern `*` matches every key |
| `Glob.PlainMatchesItself` | src/core/db.cpp:49-50 | a pattern without special characters matches itself and nothing else |
| `Glob.TokenAt` | src/core/db.cpp:9-51 | how far a pattern unit spans depends on the pattern only, and is at least one character within it |
| `Glob.ScanClass` | src/core/db.cpp:19-47 | the set loop finds where the set closes and whether the character is in it |
| `Glob.MatchUnit` | src/core/db.cpp:9-51 | one unit: where the next begins, and whether its meaning accepts the character |
| `Glob.GlobMatch` | src/core/db.cpp:55-79 | the iterative matcher returns true exactly when the declarative meaning of the pattern matches, and terminates |
| `Patterns.StarPattern` | src/core/db.cpp:55-79 | `*` and a pattern: some tail of the string matches the pattern |
| `Patterns.AnyPattern` | src/core/db.cpp:11-14 | `?` and a pattern: the string is not empty and what follows its first character matches |
| `Patterns.EscapePattern` | src/core/db.cpp:15-18 | a backslash makes the next character stand for itself; the last character of a pattern, it stands for itself |
| `Patterns.PlainPattern` | src/core/db.cpp:49-50 | any other character but a bracket stands for itself |
| `Patterns.SetPattern` | src/core/db.cpp:19-47 | a bracketed set, written as characters and spans, escaped or not, stands for one character that is, or with a caret is not, in one of its members |
| `Patterns.SetWritten` | src/core/db.cpp:26-42 | every set that closes is one written so, hence the law about sets covers all of them |
| `Patterns.BracketPattern` | src/core/db.cpp:43-46 | a bracket that begins no such set stands for itself |
| `Patterns.NothingCloses` | src/core/db.cpp:43-46 | which is so when no closing bracket follows |
| `Expiry.SlotsAreKeys` | src/core/expiry.cpp:28-50 | mutually inverse slots and index have distinct keys, as many as there are slots |
| `Expiry.RemovedConsistent` | src/core/expiry.cpp:28-40 | swap-with-last removal keeps slots and index inverse and removes exactly that key, whichever slot it was in |
| `Expiry.ArmedConsistent` | src/core/expiry.cpp:42-50 | arming keeps slots and index inverse and sets exactly that deadline |
| `Expiry.ThresholdMeans` | src/core/expiry.cpp:102 | the continue threshold in integers: at most a quarter of the sample |
| `Expiry.EvictMore` | src/core/expiry.cpp:81-98 | evictions of successive rounds add up to one set of distinct expired keys |
| `Expiry.ExpiryManager.Untrack` | src/core/expiry.cpp:28-40 | removes exactly the key's deadline, by moving the last slot into its place, and says whether it had one |
| `Expiry.ExpiryManager.SetExpiry` | src/core/expiry.cpp:42-50 | sets exactly the key's deadline |
| `Expiry.ExpiryManager.Persist` | src/core/expiry.cpp:52 | removes exactly the key's deadline |
| `Expiry.ExpiryManager.ExpiryAt` | src/core/expiry.cpp:54-58 | the deadline the table holds for the key |
| `Expiry.ExpiryManager.CheckAndExpire` | src/core/expiry.cpp:60-70 | expires the key exactly when its deadline has passed, and changes nothing else |
| `Expiry.ExpiryManager.SampleRound` | src/core/expiry.cpp:81-93 | evicts exactly the keys its picks find expired, nothing else; picks as often as there are slots, up to 20, unless it empties the table |
| `Expiry.ExpiryManager.ActiveCycle` | src/core/expiry.cpp:72-106 | for any picks and any budget: terminates, evicts only expired keys, counts exactly the shrinkage, samples at most 4 per eviction plus 20; it works in rounds, and one is followed by another exactly when more than a quarter of its picks evicted, a test found time left and the table is not empty; a wholly expired table is emptied if the time is never up |
| `Expiry.ExpiredPicked` | src/core/expiry.cpp:81-94 | in a wholly expired table every pick evicts |
| `Keyspace.WellFormedMeans` | src/core/db.cpp:131-149 | the keyspace invariant is: every TTL is on an existing key, and no stored list is empty |
| `Laws.ExistsLoopMeans` | src/core/commands.cpp:163-171 | EXISTS evicts exactly the lapsed keys it names, each once, and changes nothing else |
| `Laws.KeysLoopMeans` | src/core/commands.cpp:187-195 | KEYS lists exactly the candidates that have not lapsed and evicts exactly those that have |
| `Laws.DelLoopMeans` | src/core/commands.cpp:150-161 | DEL removes exactly the named keys, and answers 0 exactly when none of them was alive |
| `Laws.FilterMeans` | src/core/db.cpp:108-115 | the listed keys are exactly those matching the pattern, without repetition |
| `Laws.KeysLive` | src/core/commands.cpp:187-195 | KEYS answers exactly the unexpired matching keys, for any iteration order |
| `Laws.FlushAllEmpties` | src/core/commands.cpp:202-209 | after FLUSHALL no key and no TTL is left |
| `Laws.ApplyWellFormed` | src/core/commands.cpp:69-324 | every command keeps the keyspace invariant |
| `Laws.ApplyEvicts` | src/core/expiry.cpp:60-70 | whatever a command evicts has lapsed, and is evicted once |
| `Laws.EvictionTimingUnobservable` | src/core/commands.cpp:69-324 | every reply except DBSIZE, and every next unexpired view, depends only on the unexpired view |
| `Transparency.EvictionsStutter` | src/core/expiry.cpp:60-106 | over whole runs with a nondecreasing clock, active cycles and stale keys cannot be told from their absence |
| `Execution.AnsweredAlways` | src/core/commands.cpp:389-410 | a reply that makes the log read an argument implies the argument is there |
| `Execution.OrderIrrelevant` | src/core/db.cpp:108-115 | the keyspace after a command does not depend on the hash map's iteration order |
| `Execution.ReplayAppend` | src/main.cpp:90-94 | replaying a log is replaying its first part and then the rest |
| `Execution.ReadDeadline` | src/core/commands.cpp:395-406 | a logged deadline reads back as itself exactly when it fits an int64 |
| `Execution.ReplayedDels` | src/main.cpp:57-64 | replaying eviction records removes exactly those keys, at any clocks |
| `Logging.LogDecision` | src/core/commands.cpp:379-430 | what is read off the reply bytes of a one-key command is what happened to its key |
| `Logging.UnloggedUnchanged` | src/core/commands.cpp:379-430 | a one-key command that is not logged left its key as it was |
| `Logging.AnswersOweNothing` | src/core/commands.cpp:381-382 | errors and stateless answers are never logged |
| `Logging.OwedKeyed` | src/core/commands.cpp:379-456 | a one-key command owes the DEL of the eviction its gate made, then the records of what happened to its key |
| `Logging.OwedOther` | src/core/commands.cpp:411-429 | any other command owes its evictions, and itself only when it is a DEL that counted something or a FLUSHALL |
| `Logging.SkippedMeansUnchanged` | src/core/commands.cpp:379-430 | a command that owes nothing beyond its evictions changed nothing beyond them |
| `Logging.IdleOwesNothing` | src/core/commands.cpp:379-430 | a command that reads, is refused, is declined or finds nothing to change leaves nothing in the log but its evictions |
| `Recovery.LoggingComplete` | src/core/commands.cpp:379-456 | logging completeness: redoing what a command owes, at its clock and from the same state, gives exactly the state it left; nothing owed means nothing changed |
| `Recovery.CellSimulation` | src/core/commands.cpp:379-430 | one key, no hazard: replaying a command's records at any clocks up to the recovery clock keeps following the live key |
| `Recovery.CellHazardBreaks` | src/core/commands.cpp:415-421 | one key, hazard: replay at the recovery clock gives a different key |
| `Recovery.ReplayKeyed` | src/core/commands.cpp:379-456 | the records of a one-key command, replayed, change that key alone |
| `Recovery.StepSimulation` | src/core/commands.cpp:432-456 | any command or active cycle, no hazard: the replayed keyspace goes on following the live one |
| `Recovery.RecoverySimulation` | src/main.cpp:66-109 | from any baseline and over any run without hazards, replay at any clocks up to the recovery clock gives the live keyspace minus the dead keys |
| `Recovery.PerformAlive` | src/core/commands.cpp:238-254 | executing at one clock never leaves a deadline that has already passed |
| `Recovery.ReplayView` | src/core/commands.cpp:432-456 | keys that are dead before a replay begins do not influence it, whatever clocks it meets |
| `Recovery.StepExact` | src/core/commands.cpp:379-456 | at one recovery clock, and from any store that shows the same live keys, an event is recovered if and only if it is not a hazard |
| `Recovery.RecoveryExact` | src/core/commands.cpp:379-456 | from a snapshot, from nothing or from any store that shows the same live keys, recovery after every prefix of a run is exact if and only if no event of the run is a hazard |
| `Recovery.ReplayTracks` | src/main.cpp:90-94 | replaying a run without hazards over a stretch of time, each record at any clock in it, keeps following the live keyspace |
| `Recovery.HazardExample` | src/core/commands.cpp:415-421 | a concrete run from an empty server, SET with an expiry and then INCR, whose replay brings the dead key back |
| `Restarts.RestartsRecover` | src/main.cpp:66-109 | over any number of lives, each ended by a crash that keeps at least the synced bytes and each replayed over a stretch of time, a start-up finds the keyspace of the part of the last life that survived, minus the keys dead when it is done |
| `Restarts.OneMoreLife` | src/main.cpp:66-109 | a start-up that follows the earlier lives on the old part of the log follows the last one on all of it |
| `Restarts.Surviving` | src/persist/wal.cpp:91-110 | what survives a life is a shorter run that keeps everything up to any fully synced point, and the log is exactly what it owes |
| `Restarts.BootedSound` | src/main.cpp:66-109 | a start-up over a clean log satisfies the invariant and has nothing unsynced |
| `Wal.TornBytes` | src/persist/wal.cpp:22-35 | the bytes of a failed write are a strict prefix of the record |
| `Wal.AppendShaped` | src/persist/wal.cpp:91-101 | an append keeps the file shape, and only one reported as failed leaves a torn record |
| `Wal.TickShaped` | src/persist/wal.cpp:103-110 | the deferred fsync keeps the file and its shape, and never loses synced bytes |
| `Wal.CutLogDelivers` | src/persist/wal.cpp:112-170 | a log cut anywhere is never refused, and replay delivers exactly its complete records |
| `Wal.TruncatedIsClean` | src/persist/wal.cpp:159-169 | after truncation the file is exactly the delivered records, and a second replay delivers the same with no tail |
| `Wal.Wal.EncodeRecord` | src/persist/wal.cpp:50-58 | the encoding loop produces the record's RESP array |
| `Wal.Wal.WriteAll` | src/persist/wal.cpp:24-35 | short, interrupted and failing writes: a prefix of the record lands, all of it unless a write failed |
| `Wal.Wal.FsyncNow` | src/persist/wal.cpp:69-77 | calls fsync: success makes the whole file durable and clean, failure is counted and changes nothing else |
| `Wal.Wal.OpenForAppend` | src/persist/wal.cpp:79-89 | opens the log, or reports the failure of the call |
| `Wal.Wal.AppendRecord` | src/persist/wal.cpp:91-101 | is one append of the log's state machine, failed calls included, with its status |
| `Wal.Wal.Tick` | src/persist/wal.cpp:103-110 | is one deferred-fsync step; a second or more after the last one nothing is left dirty unless the call fails, and before that nothing happens |
| `Wal.Wal.Replay` | src/persist/wal.cpp:112-170 | for any chunking: delivers the file's complete records in order and cuts off the rest; fails exactly when an open, read or truncate does, or on a damaged file, which a log cut at any byte is not |
| `Wal.Wal.SizeOf` | src/persist/wal.cpp:146-149 | the byte count of the parsed commands is that of their canonical encoding |
| `Server.FailureLatch` | src/core/commands.cpp:432-456 | after a failure, at every later point of every run the log is untouched and a command is answered MISCONF |
| `Server.FailedMeans` | src/core/commands.cpp:384-387 | over whole runs persistence has failed exactly when a call on the log has, and there is no second such call |
| `Server.LatchedStep` | src/core/shard.cpp:39-44 | one step after a failure: nothing is appended or synced, and a command changes nothing |
| `Server.PutRecordsFrame` | src/core/commands.cpp:384-387 | logging touches only the log and the latch; a failure requests shutdown |
| `Server.AfterSound` | src/core/commands.cpp:432-456 | every step keeps the keyspace invariant and the file shape, and only extends file, records and synced bytes |
| `Server.ReachableLogShape` | src/persist/wal.cpp:91-101 | the same in every reachable state: no record ever follows a torn one |
| `Server.BootSound` | src/main.cpp:66-109 | a server started on an empty disk satisfies the invariant |
| `Server.ShutdownMeans` | src/core/commands.cpp:438-441 | over whole runs, shutdown is asked for exactly by a SHUTDOWN that was run or by a failure |
| `Durability.LogHoldsRun` | src/core/commands.cpp:432-456 | without a failure the log is exactly what the run owed; after one it is a prefix of that |
| `Durability.CrashDelivers` | src/persist/wal.cpp:112-170 | whatever prefix a crash keeps, replay delivers a prefix of the records: all whose bytes are there |
| `Durability.AckedIsDurable` | src/core/commands.cpp:448-455 | after a crash that keeps the synced bytes, everything owed up to a fully synced point is delivered, and nothing that was not written |
| `Durability.ReplyIsDurable` | src/core/commands.cpp:448-455 | under the always policy, once a command has been answered with anything but the persistence error, a crash loses neither its records nor any before |
| `EverySecond.TickSyncs` | src/persist/wal.cpp:103-110 | under everysec, a tick that does not fail leaves nothing unsynced if a second has passed since the last sync, and does nothing if not |
| `EverySecond.SyncedWithinASecond` | src/persist/wal.cpp:103-110 | under everysec, in every run that has not failed, whatever was written a second or more before the last tick is synced |
| `EverySecond.SyncedByAge` | src/main.cpp:124-130 | if ticks come at most d apart, whatever is older than a second and d is synced |
| `EverySecond.OldIsDurable` | src/persist/wal.cpp:103-110 | hence a crash that keeps the synced bytes does not lose what was owed a second or more before the last tick, and replay delivers nothing that was not written |
| `EverySecond.SyncsApart` | src/persist/wal.cpp:106-108 | after a tick that synced, whatever happens then, a tick within the next second does not touch the log |
| `EverySecond.EverySecondApplies` | src/persist/wal.cpp:103-110 | the hypotheses of these results are met by a first SET and a tick two seconds later, which leaves the record synced |
| `Limits.LimitsSuffice` | src/persist/wal.cpp:50-58 | if every command the clients send is within the limits, everything the run logs can be replayed |
| `Limits.StepWithin` | src/core/commands.cpp:379-430 | the records written for a command within the limits, evictions included, are within the limits |
| `Limits.ArraysAreWithin` | src/protocol/resp_parser.cpp:62-126 | with a frame limit no larger than replay's, every command that came as an array is within the limits |
| `Limits.OverLimitExample` | src/protocol/resp_parser.cpp:83-87 | an inline RPUSH over the argument limit is parsed, run, answered and logged, and replay refuses the log it leaves |
| `Cuts.CutEvent` | src/core/commands.cpp:389-398 | the first records of any event are everything a smaller possible event owes, and that event is never a hazard |
| `Cuts.KeptRun` | src/persist/wal.cpp:159-169 | the first records of any run are everything a shorter run owes, which keeps every event whose records are all there |
| `Durability.CrashKeeps` | src/persist/wal.cpp:112-170 | a crash that keeps the synced bytes leaves a log that is not refused and is exactly what a shorter run owes, on top of whatever log the run began with |
| `Durability.MoreRecovers` | src/main.cpp:66-109 | a log that recovers the start of a run recovers its end once the run is added |
| `Durability.CrashRecovery` | src/main.cpp:66-109 | crash, replay and recovery end to end, over any snapshot and earlier log: the state recovered is the live one after the shorter run that survived, minus the dead keys |
| `Durability.DurabilityApplies` | src/main.cpp:66-109 | the hypotheses of the durability results are met by the first SET of a new server, and its record is what replay delivers |
| `Db.Db.Get` | src/core/db.cpp:83-88 | the string a key holds; nothing for an absent key or a list |
| `Db.Db.KindOf` | src/core/db.cpp:98-102 | absent, string or list |
| `Db.Db.Set` | src/core/db.cpp:90-92 | stores the string under the key, other keys unchanged |
| `Db.Db.Del` | src/core/db.cpp:94 | removes exactly the key and says whether it was there |
| `Db.Db.KeysMatchingGlob` | src/core/db.cpp:108-115 | the matching keys, in iteration order |
| `Db.Db.PushOne` | src/core/db.cpp:117-129 | the list with the value at the chosen end, and its length |
| `Db.Db.PopOne` | src/core/db.cpp:131-149 | the value at the chosen end; the rest stays in order, and the key goes when nothing is left |
| `Db.Db.Llen` | src/core/db.cpp:151-155 | the length of the list, 0 for an absent key |
| `Db.Db.Lrange` | src/core/db.cpp:157-171 | the clamped slice of the list |
| `Db.SliceMeans` | src/core/db.cpp:157-171 | the clamped slice is exactly the elements whose position both bounds admit, negative bounds counted from the tail |
| `Db.Db.RestoreEntry` | src/core/db.cpp:173-175 | puts the entry under the key |
| `Dispatcher.CommandDispatcher.PutOne` | src/core/commands.cpp:384-387 | appends unless detached or failed; a failure latches and requests shutdown |
| `Dispatcher.CommandDispatcher.EvictHook` | src/main.cpp:57-64 | deletes the evicted key and logs the DEL |
| `Dispatcher.CommandDispatcher.TouchKey` | src/core/commands.cpp:67-69 | the lazy-expiry gate: a lapsed key disappears with its TTL and its DEL is logged |
| `Dispatcher.CommandDispatcher.DoGet` | src/core/commands.cpp:73-79 | GET does what its cell semantics says, gate and eviction record included |
| `Dispatcher.CommandDispatcher.ScanOptions` | src/core/commands.cpp:86-103 | the SET option loop: NX/XX exclusion, one EX/PX, and its errors |
| `Dispatcher.CommandDispatcher.DoSet` | src/core/commands.cpp:104-115 | SET with NX/XX and expiry on objects is SET on the cell |
| `Dispatcher.CommandDispatcher.DoIncrBy` | src/core/commands.cpp:117-129 | increments with overflow and type errors, keeping the TTL |
| `Dispatcher.CommandDispatcher.DoType` | src/core/commands.cpp:173-185 | TYPE |
| `Dispatcher.CommandDispatcher.DoExpire` | src/core/commands.cpp:213-228 | EXPIRE/PEXPIRE: arms, or deletes on a non-positive span |
| `Dispatcher.CommandDispatcher.DoExpireAt` | src/core/commands.cpp:238-254 | PEXPIREAT: arms, or deletes when the deadline has passed |
| `Dispatcher.CommandDispatcher.DoTtl` | src/core/commands.cpp:256-265 | TTL/PTTL: -2, -1, or the remaining time, rounded for seconds |
| `Dispatcher.CommandDispatcher.DoPersist` | src/core/commands.cpp:270-277 | PERSIST removes the TTL exactly when there is one |
| `Dispatcher.CommandDispatcher.PushValues` | src/core/commands.cpp:285-288 | the push loop leaves the values in push order, reversed at the left end |
| `Dispatcher.CommandDispatcher.DoPush` | src/core/commands.cpp:281-289 | LPUSH/RPUSH |
| `Dispatcher.CommandDispatcher.DoPop` | src/core/commands.cpp:294-303 | LPOP/RPOP; the last value takes the key and its TTL along |
| `Dispatcher.CommandDispatcher.DoLen` | src/core/commands.cpp:308-313 | LLEN |
| `Dispatcher.CommandDispatcher.DoRange` | src/core/commands.cpp:315-324 | LRANGE |
| `Dispatcher.CommandDispatcher.DoDel` | src/core/commands.cpp:150-161 | the DEL loop, with the evictions it logs on the way |
| `Dispatcher.CommandDispatcher.DoExists` | src/core/commands.cpp:163-171 | the EXISTS loop, with the evictions it logs on the way |
| `Dispatcher.CommandDispatcher.DoKeys` | src/core/commands.cpp:187-195 | the KEYS loop, with the evictions it logs on the way |
| `Dispatcher.CommandDispatcher.DoFlushAll` | src/core/commands.cpp:202-209 | FLUSHALL: disarming every key that `*` lists, then clearing, is emptying both maps |
| `Dispatcher.CommandDispatcher.LogReply` | src/core/commands.cpp:379-430 | appends exactly the records decided from the reply, stopping at the first failure |
| `Dispatcher.CommandDispatcher.Execute` | src/core/commands.cpp:432-456 | is one command step of the server state machine, for every outcome of its appends, and returns that step's reply |
| `Dispatcher.CommandDispatcher.Tick` | src/main.cpp:124-130 | is one active-cycle step, with the rounds its picks and tests call for, followed by one deferred-fsync step; under everysec, a second or more after the last sync, it leaves nothing unsynced unless it fails |
| `Dispatcher.CommandDispatcher.ReplayLog` | src/main.cpp:90-94 | executing the delivered records with no log attached, each at what the clock shows, is replaying them on the keyspace, and leaves the log alone |
| `Replies.CalledBy` | src/core/commands.cpp:358-372 | a command called by its name, in any mixture of upper and lower case, is dispatched to its handler |
| `Replies.GetReply` | src/core/commands.cpp:73-79 | GET answers the stored bytes, the null bulk exactly when the key is absent or lapsed, and the type error exactly for a list |
| `Replies.TypeReply` | src/core/commands.cpp:173-185 | TYPE answers none, string or list |
| `Replies.IncrReply` | src/core/commands.cpp:117-146 | INCR, DECR and INCRBY answer and store the sum and keep the TTL, or answer the right error and change nothing |
| `Replies.ExpireReply` | src/core/commands.cpp:213-254 | EXPIRE, PEXPIRE and PEXPIREAT answer 1 exactly when there is a key, which then has the deadline asked for, in seconds, milliseconds or outright, or is gone if that is not ahead |
| `Replies.PersistReply` | src/core/commands.cpp:270-277 | PERSIST answers 1 exactly when there is a deadline, which is then gone |
| `Replies.TtlReplies` | src/core/commands.cpp:256-268 | TTL and PTTL answer -2 exactly without a key, -1 exactly without a deadline, else the time left, TTL to the nearest second |
| `Replies.PushReply` | src/core/commands.cpp:281-292 | RPUSH adds the values at the end in order, LPUSH at the front one after the other; the new length is answered and the TTL kept |
| `Replies.PopReply` | src/core/commands.cpp:294-306 | LPOP and RPOP answer the first or last value and leave the others in order; the key goes with its last value |
| `Replies.LenReply` | src/core/commands.cpp:308-313 | LLEN answers the number of elements, 0 without a key |
| `Replies.RangeReply` | src/core/commands.cpp:315-324 | LRANGE answers exactly the elements whose positions both bounds admit, in order |
| `Replies.ExistsReply` | src/core/commands.cpp:163-171 | EXISTS counts the named keys that are alive, one named twice twice |
| `Replies.DelReply` | src/core/commands.cpp:150-161 | DEL counts the distinct keys that were alive; the named keys are gone and no other is touched |
| `Replies.KeysReply` | src/core/commands.cpp:187-195 | KEYS answers every living key that matches, once |
| `Replies.SizeReply` | src/core/commands.cpp:197-200 | DBSIZE counts every entry, lapsed ones included |
| `Replies.FlushReply` | src/core/commands.cpp:202-209 | FLUSHALL answers OK and leaves nothing |
| `Replies.PingReply` | src/core/commands.cpp:328-332 | PING answers PONG |
| `Replies.StopReply` | src/core/commands.cpp:436-441 | SHUTDOWN, in any spelling, and nothing else, stops the server, and is answered OK |
| `Replies.EchoReply` | src/core/commands.cpp:328-337 | PING with a word, and ECHO, answer the word |
| `Replies.ArityReply` | src/core/commands.cpp:73-324 | a command with the wrong number of words is answered with an error and changes nothing |
| `Replies.UnknownReply` | src/core/commands.cpp:443-445 | a word that is no command name is answered with the error that quotes it, and nothing changes |
| `SetWords.SetReply` | src/core/commands.cpp:81-115 | SET with options that agree, in any order and spelling: declined by NX or XX, or the string is stored with the expiry asked for, in seconds or milliseconds, or none |
| `SetWords.SetRefused` | src/core/commands.cpp:86-103 | any other list of options is refused with an error, and nothing changes |
| `SetWords.RefusedBecause` | src/core/commands.cpp:86-103 | which error it is depends on the first word that does not fit the ones before it |
| `Sessions.ReadYourWrite` | src/core/commands.cpp:73-115 | a stored string is read back byte for byte after any commands that do not write the key, until its deadline; from then on the answer is the null bulk |
| `Sessions.DeadlineReadBack` | src/core/commands.cpp:213-268 | a deadline that was set is what TTL and PTTL count down to, until the key is written or gone |
| `Sessions.CountRun` | src/core/commands.cpp:117-146 | over any run in which a key is written by INCR, DECR and INCRBY only, from anyone, it stands for the tally of what they added, and keeps its deadline |
| `Sessions.CountReply` | src/core/commands.cpp:117-146 | the next increment is answered with that tally and its own, or the error if the sum is no int64 |
| `Sessions.QueueRun` | src/core/commands.cpp:281-306 | over any run in which a list is pushed at one end and popped at the other, the answers to the pops are the values that were there or were pushed, each once and in order, and the list holds the rest |
| `Boot.LoadedWellFormed` | src/persist/snapshot.cpp:104-165 | a loaded snapshot gives a keyspace with the invariant the handlers rely on if and only if it leaves no key with an empty list |
| `Boot.EmptyListAccepted` | src/persist/snapshot.cpp:145-161 | a concrete file with an empty list that loads |
| `Boot.SavedIsGood` | src/persist/snapshot.cpp:69-165 | a saved snapshot is accepted at boot and stands for the saved keyspace |
| `Boot.LoadBaseline` | src/main.cpp:75-85 | loading the snapshot gives its keyspace, or says which kind of file it refused |
| `Boot.RecoverLog` | src/main.cpp:87-108 | replays the log over the baseline, opens it and arms logging; reports an I/O failure exactly when a call failed |
| `Boot.Start` | src/main.cpp:66-109 | snapshot, then log, then logging, with a verdict for every input: it starts unless a call fails, the snapshot is bad or the log is damaged; the keyspace is the replay of the delivered records over the snapshot, and a log cut anywhere ends up clean |
| `Snapshot.WordRoundTrip` | src/persist/snapshot.cpp:29-53 | a fixed-width integer that fits reads back |
| `Snapshot.SaveLoad` | src/persist/snapshot.cpp:69-165 | a saved snapshot loads back entry by entry with nothing left over |
| `Snapshot.TruncationDetected` | src/persist/snapshot.cpp:104-165 | loading any strict prefix of a saved snapshot fails |
| `Snapshot.SnapshotRoundTrip` | src/persist/snapshot.cpp:69-165 | for any iteration order, loading into empty structures restores exactly the saved entries and deadlines |
| `Snapshot.LoadExact` | src/persist/snapshot.cpp:104-165 | a file loads exactly if it begins with a saved snapshot, and as that one; no other tags, flags or lengths are accepted |
| `Snapshot.SnapshotBytes` | src/persist/snapshot.cpp:69-102 | the bytes of a snapshot of one string with a deadline: order, widths and byte order of the fields |
| `Snapshot.InFile.ReadBytes` | src/persist/snapshot.cpp:55-61 | a length-prefixed string is read only if that many bytes are left |
| `Snapshot.InFile.ReadEntry` | src/persist/snapshot.cpp:125-162 | reads one entry, or fails on a bad tag or a short file |
| `Snapshot.SaveSnapshot` | src/persist/snapshot.cpp:69-102 | the file is the header and the encoded entries in iteration order |
| `Snapshot.EntryBytes` | src/persist/snapshot.cpp:79-95 | one entry, field by field |
| `Snapshot.LoadSnapshot` | src/persist/snapshot.cpp:104-165 | succeeds exactly on well-formed files, and then restores every entry in order |
| `Shard.ActExclusive` | src/core/shard.cpp:92-115 | at most the lock holder is inside, and what it has loaded stays current |
| `Shard.Linearizable` | src/core/shard.cpp:92-115 | under every schedule keyspace, TTLs, log and replies are those of the sequential run in lock order, keeping each thread's order |
| `Sessions.LeftAlone` | src/core/commands.cpp:67-69 | a key that nobody writes is untouched by every other command and by active cycles until its deadline, and then at most gone |
| `Shard.CountExecuted` | src/core/shard.cpp:92-115 | the increments in the history are exactly those the threads have executed |
| `Shard.NoLostUpdates` | src/core/commands.cpp:117-146 | if clients send only INCRs of a fresh key and commands that do not write it, the replies are 1 to K in lock order, the key holds K, and K is the INCRs sent less those still waiting |
| `EventLoop.Connection.ConsumeOutbuf` | src/net/connection.h:29-30 | drops exactly the first bytes of the buffer |
| `EventLoop.Interest.Rearm` | src/net/event_loop.cpp:53-65 | what the loop believes the kernel watches is what it watches, also when a call is refused |
| `EventLoop.Connection.SendAll` | src/net/event_loop.cpp:98-109 | what the socket takes and what is left is what was waiting, for any short writes; it stops only when nothing is left or a call neither took bytes nor was interrupted |
| `EventLoop.Connection.Flush` | src/net/event_loop.cpp:98-129 | the same; the connection is kept exactly when all was sent and it is not due to close, or when the socket would block within the output limit, and is then watched for room exactly when something is left |
| `EventLoop.Connection.Take` | src/net/event_loop.cpp:139-146 | one chunk the socket handed over: its commands go to the handler in order and the answers are queued, or the error is and the mark set; also after an earlier error |
| `EventLoop.Connection.Serve` | src/net/event_loop.cpp:146 | hands exactly the commands of a chunk to the handler, in order, and queues exactly the handler's answers, in order |
| `EventLoop.Connection.ReadChunks` | src/net/event_loop.cpp:135-161 | every chunk the socket hands over is dealt with; reading goes on through full chunks and ends exactly at the first read that is none, at a refused chunk, a request to stop or the fairness cap |
| `EventLoop.Connection.HandleReadable` | src/net/event_loop.cpp:131-164 | is one readable event of the connection as a value, for every outcome of its reads and writes, and keeps the reply stream |
| `EventLoop.Connection.OnEvent` | src/net/event_loop.cpp:231-236 | a readable event reads and sends, a writable one sends, after a readable one again if something was left; the connection is to be closed exactly when it is finished: the peer is gone, the last of it was an error and is sent, or the socket failed or holds back too much |
| `EventLoop.Connection.Conserves` | src/net/event_loop.cpp:131-164 | until a protocol error, the handler has run exactly the commands of the bytes the socket handed over, in order, and its answers, in order, are what the socket has taken and what waits, however the stream was cut |
| `Stream.RepliesAppend` | src/net/event_loop.cpp:139-146 | what goes out for more chunks follows what went out before |
| `Stream.UnrefusedIsWhole` | src/net/event_loop.cpp:139-146 | chunks none of which is refused are answered as the commands of their concatenation |
| `Stream.ClosingMeans` | src/net/event_loop.cpp:141-145 | a connection is due to close exactly when one of its chunks was refused |
| `Stream.FedAgainAfterError` | src/net/event_loop.cpp:98-164 | after a protocol error the connection stays registered, and its parser can be fed again, if and only if the flush stopped on would-block with some bytes left, within the limit |
| `Stream.FedAgainExample` | src/net/event_loop.cpp:131-164 | a bad line whose error reply would block, then PING: the PING is parsed and run |
| `EventLoop.Loop.CloseConnection` | src/net/event_loop.cpp:67-72 | forgets the connection and remembers its descriptor for the batch |
| `EventLoop.Loop.AcceptOne` | src/net/event_loop.cpp:85-94 | registers a new, untouched connection exactly when there is room and the kernel does not refuse |
| `EventLoop.Loop.AcceptNewClients` | src/net/event_loop.cpp:74-96 | asks until there are no more clients; every one is registered, or there are too many, or the kernel refused |
| `EventLoop.Loop.Dispatch` | src/net/event_loop.cpp:223-236 | one event touches nothing but its own connection, does what it asks for, from how the calls on the socket went, and closes it exactly on a hangup or when it is finished |
| `EventLoop.Loop.RunBatch` | src/net/event_loop.cpp:208-237 | nothing has been read, written or run on a connection accepted in the batch, whatever events its descriptor had; what the events asked for was done on every connection that stays open; one that was closed hung up or is finished; every open connection keeps the reply stream, and as long as the kernel has refused nothing is watched for room exactly when something is left to send |

## Left out

- Real sockets and epoll: recv, send, accept and epoll_ctl are nondeterministic choices that keep their own record. The listener's own registration, the error sent to a client refused for lack of room, and the loop's timers are not modelled; how far apart ticks come is a hypothesis of `EverySecond.SyncedByAge`.
- CONFIG and COMMAND, and the wording of the error for a wrong number of arguments: stateless and easy.
- `Wal::rewrite`: it refuses to run (src/persist/wal.cpp:172-178).
- Command-line parsing, logging, the exit code and the atomic `fatal` flag of the sharded server; stopping all loops is the `shutdown` field only.
- Wall-clock budgets, the distribution of random picks and throughput: picks and the budget test are arbitrary choices.
- 64-bit overflow of expiry arithmetic: times are unbounded integers, and results about replay assume that armed deadlines fit an int64.
- The order in which a handler reads the clock: one reading per command stands for all of them, and the evict hook is run by the caller right after the expiry that triggers it (for an active cycle, in order after the cycle; the hook does not touch the TTL table).
- Delivery of replayed commands chunk by chunk: `Wal.Wal.Replay` returns them together; when a later part of the log is refused the server does not start either way.
- The failure of a snapshot write, a snapshot file that exists but cannot be opened, and a missing log file (modelled as an empty one).
- The signedness of `char` in glob ranges: characters compare as unsigned values.
- Boot.RecoverLog: takes the file a start-up finds as already durable; the fsync of the log's destructor is not modelled.
- The order in which the handler serves different connections of one loop: each connection has its own record of the handler's answers.
- Boot.Start: ends with a verdict of its own on a snapshot that stores an empty list, which `load_snapshot` accepts and the server never writes (`Boot.LoadedWellFormed`, `Boot.EmptyListAccepted`); what the source does from there, where a pop would read an empty deque, is not modelled.
- Snapshot.SaveLoad: only for lengths below 2^32 and little-endian hosts, because longer lengths are cut to 32 bits when written.
- Shard.NoLostUpdates: for runs in which persistence has not failed; after a failure commands are refused, which `Server.FailureLatch` states.
