# Verified model of the ticketing store and its booking protocol

A seat-booking system has two stores. A small Redis-like server keeps seat holds that expire,
confirmed seats and waiting queues; a SQL database keeps reservations and payments and is the
truth. An application server moves seats through both, a repair worker reconciles them, and a
RESP codec carries the commands. This project models these parts in Dafny and proves what they
keep over whole runs.

- **Timed store.** `Ttl`, `Keys`, `Store` (the reference: a map whose entries vanish at their
  deadline), `Engine` (the lazily purging engine, a class), and the theorems about runs in
  `Locality`, `ExpireRuns`, `SeatRuns`, `QueueRuns`; `StoreLaws` says what a client can rely on.
- **Wire.** `Bytes` (UTF-8 as in section 3 of RFC 3629, decimal numbers), `Requests`, `Replies`,
  `Server`; the format is that of the Redis serialization protocol specification, RESP2. `Grammar`
  has it without a parser, `WireLaws` the exact bytes and the edges of a session.
- **Executor.** `Executor`, one worker and any number of callers.
- **Database.** `IsoTime`, `Repository` (tables and transactions), `Ticketing` (the service),
  `ServiceLaws` (when each call is granted and what it leaves).
- **Booking protocol.** `Flows` (each flow cut into single requests), `Booking` (any number of
  flows over both stores), `Completion` (what successful flows leave behind), `Courses` (the
  orders of their requests), `Decisions` (what decides each turn), `Reconciler` (the repair worker
  run by itself).

The source's mutable objects are classes whose methods are proved against functions
(`Store.Step`, `Requests.Drain`, `Repository.Execute`, `Ticketing.Serve`); the theorems over runs
are about those functions. Time is a `real` that never runs backwards and is a parameter of every
operation that reads a clock. Network losses, repetitions, the choice of payment ids and the
order of database query results are parameters or arbitrary choices.

Where a law does not hold of the code as it stands, the project states exactly when it does and
gives an input that breaks it: queue commands on an expired key (`Engine.QueueCommandExact`,
`Engine.StaleQueueIsVisible`), seat keys (`Keys.SeatKeyCollision`, `Keys.ColonInEventIdCollides`),
resent LEAVE_QUEUE (`SeatRuns.ResendOnSlot`, `SeatRuns.PlantedDuplicateBreaksResend`), interleaved
database writes (`Ticketing.InterleavedRunIff`, `Ticketing.InterleavedWritesBreakTheLifeCycle`),
feeds of a stream with an error (`Requests.ChunksDoNotMatter`, `Requests.ErrorLosesCommands`) and
confirmations that name a reservation of another seat (`Booking.ConfirmationIsSafeIff`,
`Booking.MismatchedConfirmationBreaksSafety`).

Check the whole project with `dafny verify dfyconfig.toml`.

## Model

| member | source | states |
|---|---|---|
| `Ttl.Remaining` | storage/engine.py:94-106 | The TTL of a live volatile key is at least 1 and less than one second above the true remainder; it is 0 only at or after the deadline |
| `Keys.SeatKeyCollision` | storage/engine.py:313-315 | Two (event, seat) pairs share a key if and only if they are equal or one event id contains the other's separator and part of its seat id |
| `Keys.SeatKeyInjective` | storage/engine.py:313-315 | Colon-free event ids keep all seats apart |
| `Keys.ColonInEventIdCollides` | storage/engine.py:313-315 | Two different seats with one key |
| `Keys.QueueKeyInjective` | storage/engine.py:335-337 | Different events have different queue keys |
| `Keys.KeyKinds` | storage/engine.py:313-337 | No seat key is a queue key or the other way round |
| `Engine.KeyEffectMatches` | storage/engine.py:274-284 | A command that purges and writes only its own key answers as the reference map does and leaves the same live map |
| `Engine.QueueCommandExact` | storage/engine.py:339-353 | A queue command, which never purges, looks like the reference if and only if its key is not expired or the expired record is the empty list |
| `Engine.StaleQueueIsVisible` | storage/engine.py:267-272 | A queue with a past deadline is still answered |
| `Engine.KeyEffectKeepsQueues` | storage/engine.py:345-353 | Apart from EXPIRE on a queue key, no command gives a queue key a deadline |
| `Engine.LoadedIsLive` | storage/engine.py:108-130 | Saving a store and loading it at a later time leaves exactly what is still alive then |
| `Engine.StorageEngine.PurgeIfExpired` | storage/engine.py:274-284 | Removes the key if and only if its deadline has come, and says whether it did |
| `Engine.StorageEngine.PurgeExpiredKeys` | storage/engine.py:286-293 | The store becomes its live part |
| `Engine.StorageEngine.Set` | storage/engine.py:49-51 | Only its key changes; any deadline is dropped |
| `Engine.StorageEngine.Get` | storage/engine.py:53-59 | The value of the live entry, none for an expired one; no other key changes |
| `Engine.StorageEngine.Delete` | storage/engine.py:61-68 | Reports whether a live entry was there; only its key changes |
| `Engine.StorageEngine.Expire` | storage/engine.py:70-92 | NX, XX, GT and LT against the live entry; a non-positive time deletes; only its key changes |
| `Engine.StorageEngine.GetTtl` | storage/engine.py:94-106 | -2 for an absent or expired key, -1 for a persistent one, else the rounded-up remainder |
| `Engine.StorageEngine.Snapshot` | storage/engine.py:108-115 | Purges, then lists each live entry once and nothing else |
| `Engine.StorageEngine.LoadSnapshot` | storage/engine.py:117-130 | The store becomes the listed entries that have not expired by the time of the load |
| `Engine.StorageEngine.SeatStatusByKey` | storage/engine.py:298-311 | The status of the live entry; purges an expired one and touches nothing else |
| `Engine.StorageEngine.ReserveSeat` | storage/engine.py:132-157 | Agrees with the reference seat machine in reply and effect, on its own key only |
| `Engine.StorageEngine.ConfirmSeat` | storage/engine.py:159-180 | The same for confirm, with its idempotent repetition |
| `Engine.StorageEngine.ForceConfirmSeat` | storage/engine.py:182-194 | The same for force-confirm |
| `Engine.StorageEngine.ReleaseSeat` | storage/engine.py:196-211 | The same for release |
| `Engine.StorageEngine.GetSeatStatus` | storage/engine.py:213-218 | The same for the status read |
| `Engine.StorageEngine.StoreQueue` | storage/engine.py:345-353 | Writes the list without a deadline, or removes the key when it is empty |
| `Engine.StorageEngine.JoinQueue` | storage/engine.py:220-231 | Agrees with the reference queue on the stored entry, in reply and effect |
| `Engine.StorageEngine.QueuePosition` | storage/engine.py:233-240 | The same for the position read, which changes nothing |
| `Engine.StorageEngine.PopQueue` | storage/engine.py:242-252 | The same for pop |
| `Engine.StorageEngine.LeaveQueue` | storage/engine.py:254-265 | The same for leave |
| `Engine.StorageEngine.PeekQueue` | storage/engine.py:267-272 | The same for peek, which changes nothing |
| `Engine.StorageEngine.Dispatch` | storage/engine.py:49-353 | While no queue key has a deadline, every command answers as the reference map and keeps it so |
| `Engine.StorageEngine.Replay` | storage/engine.py:49-130 | Refinement over runs: under a clock that never runs backwards the lazily purging engine gives every reply of the reference map, with snapshots and restarts inserted anywhere, and ends with the same live contents at every later time |
| `Locality.RunIsLocal` | storage/engine.py:313-353 | What a key sees of a run, contents and replies, is determined by the commands on that key alone |
| `Locality.SeatCommandsDoNotInterfere` | storage/engine.py:313-353 | A seat or queue command leaves every other seat and every other queue as it was, for colon-free event ids |
| `ExpireRuns.LowerOnlyKeepsMinimum` | storage/ttl.py:31-54 | LT only: at every later time the key is alive if and only if the minimum of all deadlines is ahead, and that minimum is its deadline |
| `ExpireRuns.RaiseOnlyKeepsMaximum` | storage/ttl.py:31-54 | GT only: alive if and only if no EXPIRE came too late and the maximum is ahead, which is then its deadline; a persistent key stays persistent |
| `ExpireRuns.EarliestIsMinimum` | storage/ttl.py:31-54 | The minimum in question is not after any deadline that was there or asked for, and is one of them; persistent counts as infinite |
| `ExpireRuns.LatestIsMaximum` | storage/ttl.py:31-54 | The maximum in question is not before any of them, and is one of them |
| `ExpireRuns.OnceOnlyKeepsFirst` | storage/ttl.py:31-54 | NX only: alive if and only if the deadline the key had, or else the first one asked for, is ahead, and that is its deadline |
| `ExpireRuns.FirstIsFirst` | storage/ttl.py:31-54 | Which deadline that is: the own one of a volatile key, that of the first EXPIRE for a persistent key, none without one |
| `ExpireRuns.PersistentIgnoresXX` | storage/ttl.py:31-54 | XX only: a persistent key stays persistent |
| `ExpireRuns.OverwritingKeepsLast` | storage/ttl.py:31-54 | No option, or XX on a volatile key: alive if and only if no EXPIRE came too late and the last deadline asked for is ahead, and that is its deadline |
| `ExpireRuns.LastIsLast` | storage/ttl.py:31-54 | Which deadline that is: that of the last EXPIRE, or the own one without one |
| `ExpireRuns.GoneStaysGone` | storage/engine.py:70-92 | No run of EXPIRE revives a key that is gone |
| `StoreLaws.SetThenRead` | storage/engine.py:49-68 | After SET and any traffic on other keys, GET gives the value, TTL gives -1 and DEL succeeds |
| `StoreLaws.DelThenRead` | storage/engine.py:53-68 | DEL reports whether GET would have found a value; afterwards GET finds none, TTL gives -2 and DEL fails |
| `StoreLaws.ReadsAgree` | storage/engine.py:53-106 | GET and TTL change nothing, and TTL is -2 exactly when GET finds no value |
| `StoreLaws.ExpireThenRead` | storage/engine.py:70-106 | EXPIRE applies exactly as its option says, in terms of the TTL and the deadline before; the value is then readable until the new deadline, with the rounded-up remainder as its TTL, and gone from then on; if it does not apply nothing changes |
| `StoreLaws.SeatStepIsClaimed` | storage/engine.py:132-218 | Each seat command is granted exactly when the claim on the seat (free, held until, sold) entitles its user, establishes the claim it asks for, and describes the resulting claim in its reply |
| `StoreLaws.SeatRunIsClaimed` | storage/engine.py:132-218 | The same over every run of seat commands amid other traffic, with holds lapsing at their end |
| `StoreLaws.KeyTexts` | storage/engine.py:313-337 | The text of a seat key and of a queue key |
| `SeatRuns.SecuredSeatRefusesOthers` | storage/engine.py:132-211 | A seat held by u or confirmed for u stays so, and every contending command by another user fails, as long as no further reserve or release by u succeeds and nobody force-confirms |
| `SeatRuns.HoldExcludesOthers` | storage/engine.py:132-211 | After u's latest successful reserve at t for h seconds, no other user's reserve, confirm or release succeeds before t + h, in any run in which no release by u succeeds and nobody force-confirms; failing commands of u are allowed |
| `SeatRuns.ConfirmationIsPermanent` | storage/engine.py:159-211 | Over every run a confirmed seat stays confirmed, and its owner is the user of the last force-confirm |
| `SeatRuns.ResendOnSlot` | app_server/redis_client.py:151-164 | A wrapped command executed twice leaves what one execution leaves if and only if it is not a LEAVE_QUEUE that finds its user listed twice, or that list holds nothing else and lapses in between |
| `SeatRuns.PlantedDuplicateBreaksResend` | app_server/redis_client.py:151-164 | A list with a duplicate, planted by a generic SET, loses two entries |
| `SeatRuns.QueueResendsAreSafe` | storage/engine.py:220-265 | After any run in which an absent key has seen queue commands only, every queue command on it may be resent |
| `SeatRuns.ResendIsHarmless` | app_server/redis_client.py:151-164 | At-least-once delivery: execution at t1 and t2 with nothing on the key between gives the whole live store of a run with only one of the two, if and only if that same condition holds |
| `QueueRuns.QueueStepIsTicketed` | storage/engine.py:220-272 | Each queue command answers as a ticket dispenser without any list would, and the stored list remains the waiting users in ticket order |
| `QueueRuns.QueueRunIsTicketed` | storage/engine.py:220-272 | The same over every run amid any other traffic; in particular a pop yields the earliest remaining joiner |
| `QueueRuns.QueueConserves` | storage/engine.py:220-265 | Successful joins equal pops plus successful leaves plus the queue length, and no user is listed twice |
| `QueueRuns.WaitingUserAdvances` | storage/engine.py:233-240 | While a user waits, the ticket is kept and nobody new gets ahead |
| `QueueRuns.ReportedPositionsNeverGrow` | storage/engine.py:233-240 | Two QUEUE_POSITION replies of one run: if the user is not popped and does not leave in between, the later place is not greater |
| `QueueRuns.WaitingUsersNeverSwap` | storage/engine.py:220-272 | Two users who both keep waiting never change their order, and neither moves back |
| `Bytes.ParsePrintInt` | protocol/resp_parser.py:28-44 | Reading a printed integer gives that integer |
| `Bytes.PrintIntHasNoCr` | protocol/resp_encoder.py:32-34 | Printed integers contain no CR |
| `Bytes.DecodeEncode` | protocol/resp_parser.py:71-76 | UTF-8 decoding inverts encoding for all text |
| `Bytes.EncodeDecode` | protocol/resp_parser.py:71-76 | Every accepted byte string is the encoding of its text, so overlong forms and surrogates are refused |
| `Requests.ParseRespFrame` | protocol/resp_parser.py:79-88 | The loop over the tokens agrees with the recursive frame grammar, errors included |
| `Requests.BulkStringStable` | protocol/resp_parser.py:47-76 | A finished or failed bulk string is not changed by later bytes |
| `Requests.FrameStable` | protocol/resp_parser.py:79-88 | A complete or failed verdict on a buffer stands whatever bytes follow |
| `Requests.DrainAppend` | protocol/resp_parser.py:109-122 | Parsing a longer buffer continues where parsing its prefix stopped |
| `Requests.ChunksDoNotMatter` | protocol/resp_parser.py:109-122 | Every chunking leaves the same bytes buffered and fails exactly when one big feed does; without an error the feeds together return its commands; with one they return what the chunks before the first raising feed hold, a prefix of its commands, and every feed from then on raises its error |
| `Requests.ErrorsPersist` | protocol/resp_parser.py:109-122 | Once a feed has raised, every later feed raises the same error and no byte is dropped |
| `Requests.ErrorLosesCommands` | protocol/resp_parser.py:109-122 | A command completed by the feed that raises is never returned, while it is if its chunk ends before the error |
| `Requests.RespStreamParser.FeedData` | protocol/resp_parser.py:109-122 | Returns the commands completed, or the error, and keeps exactly the unparsed bytes |
| `Requests.RespStreamParser.Reset` | protocol/resp_parser.py:124-125 | Forgets what was buffered |
| `Requests.EncodeCommandBytes` | app_server/redis_client.py:260-267 | The loop builds the request that the round trips are about |
| `Requests.TokenRoundTrip` | app_server/redis_client.py:260-267 | A token is parsed back, CR and LF inside it included, wherever it stands |
| `Requests.CommandRoundTrip` | app_server/redis_client.py:260-267 | The server reads back exactly the tokens of a request and consumes exactly its bytes, whatever follows |
| `Requests.CommandsRoundTrip` | protocol/resp_parser.py:109-122 | A concatenation of requests is parsed into exactly those commands with nothing left over |
| `Grammar.FrameIff` | protocol/resp_parser.py:19-88 | The server accepts exactly the request frames of the grammar, written by positions in the buffer without a parser, and consumes exactly the frame |
| `Grammar.RefusedIsNoFrame` | protocol/resp_parser.py:79-88 | What is refused is not the beginning of any frame |
| `Grammar.FrameErrors` | protocol/resp_parser.py:28-44 | Which error is reported for what stands in place of the array header |
| `Grammar.TokenErrors` | protocol/resp_parser.py:47-76 | Which error is reported for what stands in place of a bulk string |
| `Grammar.TokenErrorCounts` | protocol/resp_parser.py:79-88 | A refused token makes the whole request refused, with its error |
| `Grammar.ReplyIff` | app_server/redis_client.py:65-129 | The client takes for a value exactly the replies of the grammar, nested arrays included, and consumes exactly the reply |
| `Grammar.ReplyErrors` | app_server/redis_client.py:72-129 | Which error the client reports for what is not a reply |
| `WireLaws.Utf8Bytes` | protocol/resp_parser.py:71-76 | The bytes of letters of one to four bytes |
| `WireLaws.RequestBytes` | app_server/redis_client.py:260-267 | The exact bytes of a request |
| `WireLaws.NumbersAccepted` | protocol/resp_parser.py:28-44 | Blanks in front, a plus sign and an underscore between digits are accepted in a length |
| `WireLaws.NumbersRefused` | protocol/resp_parser.py:28-44 | Nothing, a sign alone, letters and misplaced underscores are not |
| `Replies.ParseRespReply` | app_server/redis_client.py:72-129 | The loop over array items agrees with the recursive reply grammar, errors included |
| `Replies.ReplyStable` | app_server/redis_client.py:72-129 | A verdict on a reply stands whatever bytes follow |
| `Replies.ResultRoundTrip` | server/server.py:45-64 | Every result, nested in an array or not, is parsed back with exact consumption |
| `Replies.ResponseRoundTrip` | server/server.py:39-78 | Every reply is parsed back to the command's result or to its one-line error, exactly consumed |
| `Replies.PrefixNeedsMore` | app_server/redis_client.py:269-285 | A proper prefix of a reply is never taken for a reply |
| `Replies.ReadReply` | app_server/redis_client.py:269-285 | The receive loop accumulates chunks until there is a verdict, and refuses trailing data |
| `Replies.ReceiveRoundTrip` | app_server/redis_client.py:269-285 | However a reply is cut into chunks, the client obtains its meaning |
| `WireLaws.TextReplyBytes` | server/server.py:67-78 | The exact bytes of a simple string, sent for SET in upper or lower case, and of a bulk string |
| `WireLaws.NumberReplyBytes` | protocol/resp_encoder.py:23-34 | The exact bytes of an integer and of nil |
| `WireLaws.ArrayReplyBytes` | protocol/resp_encoder.py:37-54 | The exact bytes of an array |
| `WireLaws.ErrorBytes` | protocol/resp_encoder.py:57-60 | The exact bytes of an error |
| `WireLaws.ErrorIsReported` | app_server/redis_client.py:72-83 | An error line is reported to the caller with its text |
| `WireLaws.StripIsInside` | server/server.py:39-42 | Stripping an error message removes blanks at both ends and nothing else |
| `WireLaws.BlankLetters` | server/server.py:39-42 | Which letters count as blank |
| `WireLaws.ErrorTextIs` | server/server.py:39-42 | An error text is the stripped message, or the kind of error if that is empty, with CR and LF turned into spaces |
| `WireLaws.TrailingDataIsRefused` | app_server/redis_client.py:269-285 | Bytes after a whole reply are refused, unless the reply is an error |
| `WireLaws.DisconnectIsReported` | app_server/redis_client.py:269-285 | A disconnect before the end of a reply is reported as such |
| `WireLaws.BadRepliesAreReported` | app_server/redis_client.py:151-172 | A reply that cannot be understood is reported with the reason |
| `WireLaws.ResultsRefused` | server/server.py:67-78 | An empty command name, and a SET result that is not a one-line text, are answered with an error that says why |
| `Server.HandleBuffer` | server/server.py:128-151 | Executes exactly the whole frames of the buffer, answers each once, and drops the buffer at a protocol error |
| `Server.HandleClient` | server/server.py:91-154 | The nested loops carry out the session of the chunks received, up to the disconnect |
| `Server.SessionIgnoresChunks` | server/server.py:112-151 | Up to the first protocol error the commands, replies and state do not depend on the chunks |
| `Server.EndToEnd` | server/server.py:112-151 | For every list of commands cut into any chunks, the server executes exactly those in order and sends one reply each, and each reply, cut in any way, is read back as its result or error |
| `WireLaws.SessionRecovers` | server/server.py:132-142 | After a protocol error the session starts afresh with the next chunk, and commands that follow are executed and answered as usual |
| `WireLaws.DisconnectEnds` | server/server.py:112-131 | Nothing is executed after the peer has closed |
| `WireLaws.ProtocolErrorReadsBack` | server/server.py:138-142 | The client reads a protocol error as the server's message |
| `WireLaws.ProtocolErrorIsAnswered` | server/server.py:138-142 | A protocol error is answered once, after the replies to the commands before it |
| `Executor.NextKeepsInv` | server/executor.py:53-81 | Every step of a caller or the worker keeps the queue in order and storage and results equal to a sequential run |
| `Executor.RunsAreLinearizable` | server/executor.py:53-81 | In every state of every run, storage and all delivered results are those of a sequential run in queue order, timed-out commands included, and every call has its own place in that order |
| `Executor.ReturnDelivers` | server/executor.py:53-68 | A caller whose task is done returns what the sequential run gives its command |
| `Executor.EveryCallCanReturn` | server/executor.py:53-81 | No call is forgotten: from every reachable state, once the worker has served the queue, every waiting caller can return with its sequential result |
| `Executor.CallersQueueUp` | server/executor.py:53-68 | An invocation waits for the place after all others, and may give up |
| `Executor.RealTimeOrder` | server/executor.py:53-68 | A call that returned or timed out before another began comes earlier in that order |
| `IsoTime.IsoOrderIsTimeOrder` | ticketing_api/service.py:28-35 | For all UTC instants the stored texts compare as the instants do, although a zero fraction is omitted |
| `WireLaws.TimeTexts` | ticketing_api/service.py:28-35 | The text of a stored time, field by field, with and without a fraction |
| `WireLaws.TimeOfDay` | ticketing_api/service.py:28-35 | An instant is days of twenty-four hours and the time of day |
| `WireLaws.Calendar` | ticketing_api/service.py:28-35 | Leap years and the lengths of months |
| `WireLaws.NextDay` | ticketing_api/service.py:28-35 | Days follow each other within and across months |
| `WireLaws.NewYear` | ticketing_api/service.py:28-35 | And across years |
| `Repository.ExecuteKeepsOneConfirmed` | ticketing_api/database.py:70-72 | Every transaction keeps at most one confirmed reservation per seat |
| `Repository.OneConfirmedAlways` | ticketing_api/repository.py:286-445 | The same over any sequence of transactions of any calls, whatever checks preceded them |
| `Repository.FailureRollsBack` | ticketing_api/repository.py:327-378 | A refused transaction leaves reservations and payments as they were |
| `ServiceLaws.KeysAlways` | ticketing_api/database.py:42-72 | Hold tokens and payment ids stay unique and all references valid over every run of transactions |
| `Repository.SweepIsChronological` | ticketing_api/repository.py:25-39 | The sweep expires exactly the held rows whose instant is not in the future |
| `Repository.ListingIsChronological` | ticketing_api/repository.py:213-242 | The stale listing has exactly the held rows whose instant is not in the future |
| `Repository.TicketingRepository.CreateHeldReservation` | ticketing_api/repository.py:286-325 | Inserts a held row unless a key, token or reference forbids it, in which case nothing changes |
| `Repository.TicketingRepository.ConfirmReservation` | ticketing_api/repository.py:327-378 | Payment and status change together or not at all |
| `Repository.TicketingRepository.CancelReservation` | ticketing_api/repository.py:380-431 | The optional payment and the status change together or not at all |
| `Repository.TicketingRepository.ExpireReservation` | ticketing_api/repository.py:433-445 | Sets the status of that row only, without looking at the old one |
| `Repository.TicketingRepository.ExpireStaleReservations` | ticketing_api/repository.py:25-39 | Expires the overdue held rows and changes nothing else |
| `Repository.TicketingRepository.CreateUser` | ticketing_api/repository.py:76-96 | Adds the user and changes nothing else |
| `Repository.TicketingRepository.ListStaleHeldReservations` | ticketing_api/repository.py:213-242 | Distinct overdue holds, exactly `limit` of them when there are more, else all |
| `Repository.TicketingRepository.ListConfirmedReservations` | ticketing_api/repository.py:186-211 | Distinct confirmed rows, exactly `limit` of them when there are more, else all |
| `Ticketing.CallIsStatements` | ticketing_api/service.py:58-162 | A service call is a run of transactions, each made on a row that is HELD at that moment |
| `Ticketing.ServeKeeps` | ticketing_api/service.py:58-193 | Every call only moves rows out of HELD, and keeps payments in step with statuses and one confirmed row per seat |
| `Ticketing.LifeCycle` | ticketing_api/service.py:96-162 | The same over every run: HELD and EXPIRED rows have no payment, CONFIRMED rows one that succeeded, CANCELLED rows none that succeeded; terminal states absorb |
| `Ticketing.LeavesHeldOnce` | ticketing_api/service.py:96-162 | Over every run a held row changes status at most once and any other row never |
| `Ticketing.ConfirmGrantedIff` | ticketing_api/service.py:96-126 | A confirmation is granted if and only if the row is a live hold on a free seat with a free payment id, or the call repeats the one that confirmed it; otherwise only the sweep takes effect |
| `Ticketing.OverdueHoldIsNotConfirmed` | ticketing_api/service.py:96-126 | No hold that is overdue at its sweep is confirmed; it is expired |
| `ServiceLaws.CreateGrantedIff` | ticketing_api/service.py:58-94 | A hold is granted if and only if seat and user are known and either the very same request is stored, or id and token are new and the seat is not sold; the record carries exactly what was asked for; no other reservation is touched |
| `ServiceLaws.RepeatedCreate` | ticketing_api/service.py:58-94 | Repeating a granted request is granted again with the same reservation |
| `ServiceLaws.CreatedHoldLasts` | ticketing_api/service.py:58-94 | Whatever calls follow, while the hold is HELD a sweep expires it if and only if the instant asked for has come |
| `ServiceLaws.ConfirmLeaves` | ticketing_api/service.py:96-126 | What a granted confirmation leaves: the row confirmed, exactly the payment given, all else as swept; and what a refused one answers |
| `ServiceLaws.RepeatedConfirm` | ticketing_api/service.py:96-126 | Repeating a granted confirmation is granted again and changes nothing |
| `ServiceLaws.CancelGrantedIff` | ticketing_api/service.py:128-147 | A cancellation is granted if and only if the reservation is a live hold, with complete payment data and a free payment id, or cancelled already; it leaves exactly the failed or cancelled payment asked for |
| `ServiceLaws.RepeatedCancel` | ticketing_api/service.py:128-147 | Repeating a granted cancellation is granted again and changes nothing |
| `ServiceLaws.ExpireGrantedIff` | ticketing_api/service.py:149-162 | An expiry is granted if and only if the reservation is HELD or EXPIRED, and leaves it EXPIRED |
| `ServiceLaws.CallFrame` | ticketing_api/service.py:96-162 | A call about one reservation touches no other, apart from the sweep |
| `ServiceLaws.ConfirmedListing` | ticketing_api/service.py:174-178 | The listing reports each confirmed reservation that the query yields, as it is stored |
| `ServiceLaws.StaleListing` | ticketing_api/service.py:186-193 | The stale sweep reports each overdue hold that the query yields, now EXPIRED |
| `Ticketing.WriteEvolvesIff` | ticketing_api/repository.py:367-443 | A transaction moves rows forward only if and only if, at the moment it is made, the tables refuse it or its row is absent, HELD, or already in the status written |
| `Ticketing.WriteSoundIff` | ticketing_api/repository.py:327-443 | It keeps payments in step with statuses if and only if an expiry finds no payment and a cancellation leaves none that succeeded |
| `Ticketing.InterleavedRunIff` | ticketing_api/repository.py:286-445 | A run of interleaved transactions of any calls keeps the life cycle throughout if and only if each of them meets both conditions at its moment |
| `Ticketing.InterleavedWritesBreakTheLifeCycle` | ticketing_api/repository.py:433-443 | Two calls that both checked a held row can confirm it and then expire it, payment and all |
| `Ticketing.TicketingService.CreateHeldReservation` | ticketing_api/service.py:58-94 | Carries out the atomic call that the theorems are about, with its idempotent repetition |
| `Ticketing.TicketingService.ConfirmReservation` | ticketing_api/service.py:96-126 | The same for confirm |
| `Ticketing.TicketingService.CancelReservation` | ticketing_api/service.py:128-147 | The same for cancel |
| `Ticketing.TicketingService.ExpireReservation` | ticketing_api/service.py:149-162 | The same for expire |
| `Ticketing.TicketingService.ExpireStaleReservations` | ticketing_api/service.py:186-193 | Reports at most `limit` overdue holds, all now EXPIRED, but expires every overdue hold as soon as it lists one |
| `Booking.RedisKeepsBacked` | storage/engine.py:132-211 | Reserve, release, lapses and foreign traffic confirm nothing; a force-confirm of a booked seat keeps the stores consistent |
| `Booking.NextKeepsInv` | app_server/service.py:161-400 | Every single request of every flow, lost, repeated or answered, and every replacement of Redis by an earlier state, keeps the cross-store invariant |
| `Booking.ConfirmedSeatsAreBooked` | app_server/service.py:256-343 | In every reachable state a seat that Redis shows confirmed for u has a confirmed reservation of u for that seat, and it is the only confirmed one |
| `Booking.EveryPastStateIsBacked` | storage/engine.py:108-130 | Every earlier state of Redis is consistent with the present database, so any snapshot may be restored at any time |
| `Booking.CompensationLeavesNoHold` | app_server/service.py:449-527 | When the compensating calls get through, the reservation is terminal and Redis does not show the seat held by the user |
| `Courses.StepKeepsCourse` | app_server/service.py:161-400 | Whatever is answered or lost, a flow makes its requests in the order of its kind |
| `Courses.FlowsKeepToTheirCourse` | app_server/service.py:161-400 | Over every run each flow that has returned has made the requests of a whole course or of one of the failures listed: a failed creation is followed by a release, a purchase that fails later cancels and releases, forcing is tried three times, a reconciler pass looks at every reservation on its lists |
| `Decisions.ReserveDecides` | app_server/service.py:161-254 | A reservation is asked for if and only if the seat was free or the user's own hold, and then Redis holds it for the time asked for |
| `Decisions.CreateDecides` | app_server/service.py:202-237 | The reservation is asked for with the data of the hold; granted, the flow goes on with it, otherwise to its release |
| `Decisions.StatusDecides` | app_server/service.py:273-291 | A confirmation goes on to the database if and only if Redis shows the seat held by its user, and expires its reservation if and only if Redis shows the seat free |
| `Decisions.ConfirmDecides` | app_server/service.py:313-333 | The seat is forced if and only if the database has granted the confirmation |
| `Decisions.ExpireDecides` | app_server/service.py:495-520 | A confirmation that finds the seat free leaves its held reservation expired, and fails |
| `Decisions.ForceDecides` | app_server/service.py:529-593 | A force-confirm that is answered shows the seat confirmed for the user and is followed by the views |
| `Decisions.CancelDecides` | app_server/service.py:345-377 | A cancellation releases the seat if and only if its reservation is now cancelled; which reservations that is, exactly |
| `Decisions.ReleaseDecides` | app_server/service.py:449-493 | A release is sent if and only if Redis shows the seat held by the user, and after it there is no such hold |
| `Decisions.StaleDecides` | app_server/reconciler.py:72-75 | A reconciler releases a seat if and only if the user of the expired reservation holds it |
| `Decisions.CheckDecides` | app_server/reconciler.py:90-97 | A reconciler force-confirms a seat if and only if it is not shown confirmed for the user |
| `Decisions.ListsDecide` | app_server/reconciler.py:62-82 | The two lists are taken as the database reports them, from the first to the last |
| `Decisions.ViewsDecide` | app_server/service.py:402-408 | The database views that flows read sweep and change nothing else, and each is followed by the next request of its course |
| `Decisions.SeatReadsDecide` | app_server/service.py:124-126 | If the record of its own seat is readable, the last read lets a flow succeed, or takes a purchase from its hold to its confirmation; otherwise the flow fails |
| `Decisions.SilenceDecides` | app_server/service.py:161-400 | A request that stays unanswered: a creation is followed by a release, a purchase past its hold phase compensates, forcing is repeated, the rest fails |
| `Decisions.ConfirmationsWereHeld` | app_server/service.py:273-343 | Over every run, a flow that is about to have its reservation confirmed, is past that or succeeded, was about to at a moment when Redis showed the seat held by its user |
| `Decisions.ReservationsWereHeld` | app_server/service.py:161-237 | Over every run, a flow that asks for its reservation or has obtained it was about to at a moment when Redis had just begun to hold the seat for its user |
| `Decisions.ReleasesEndHolds` | app_server/service.py:449-493 | However a flow comes to release its seat, when the last request of the release is answered Redis does not show the seat held by the user |
| `Decisions.CancellationsCancel` | app_server/service.py:345-377 | Over every run a cancellation that succeeded has its reservation cancelled, and a reconciler pass releases seats of expired reservations only |
| `Completion.StaysTidy` | storage/engine.py:132-211 | Seat commands and traffic that spares seats keep seat records well formed and confirmed ones persistent |
| `Completion.ReachableIsTidy` | storage/engine.py:132-211 | Every reachable state of the booking system is of that kind, returns to earlier states included |
| `Completion.ShownStays` | app_server/service.py:529-593 | No command of any flow takes away a confirmed seat that is booked: a force-confirm of the same key names the same user |
| `Completion.ShownForEver` | app_server/service.py:256-343 | A seat that both stores show confirmed for a user they show so in every later state, unless Redis goes back to a state from before |
| `Completion.FinishedConfirmationShowsInBoth` | app_server/service.py:529-593 | From the force step on, whether or not its answer arrives, both stores show the seat confirmed for the user in every later state |
| `Completion.SuccessShowsInBoth` | app_server/service.py:256-400 | Over every run in which Redis does not go back after the flow's own force-confirm, a purchase or plain confirmation that returned successfully, or is past its force-confirm, is confirmed for its user in both stores, then and in every later state; earlier returns of Redis do not matter |
| `Completion.NeverSoldTwice` | app_server/service.py:256-400 | In every reachable state any two flows that have had a reservation of one seat confirmed are for the same user and the same reservation |
| `Completion.PurchasesEndDefinitely` | app_server/service.py:379-400 | Over every run: a successful purchase is booked, and shown in Redis unless that went back after its force-confirm; a failed one ended in its hold phase or sent its cancellation before its release; once that was answered the reservation is terminal |
| `Booking.ForceIsSafeIff` | app_server/service.py:529-593 | A force-confirm keeps the stores consistent if and only if the seat is booked by that user |
| `Booking.ConfirmationIsSafeIff` | app_server/service.py:313-333 | After a granted confirmation, force-confirming the requested seat is safe if and only if the request matches the reservation or the seat was already booked by that user |
| `Booking.MismatchedConfirmationBreaksSafety` | app_server/service.py:256-343 | A confirmation of a held seat that names a reservation of another seat goes through from its first request on and confirms a seat in Redis that nobody booked |
| `Reconciler.ConfirmedKeysDiffer` | app_server/reconciler.py:81-104 | Two confirmed reservations never share a Redis key, so no repair undoes another |
| `Reconciler.StatusTells` | app_server/reconciler.py:90-92 | The status reply tells exactly whether the seat is shown confirmed, or held, for the user |
| `Reconciler.ReportIsExact` | app_server/reconciler.py:81-104 | A reservation is reported as repaired if and only if it was listed, not shown, and both requests were answered; as an error if and only if a request it needed was not |
| `Reconciler.PassIsExact` | app_server/reconciler.py:56-104 | With Redis reachable, a confirmed reservation is shown after a pass if and only if it was before or was listed; with a sufficient limit all are |
| `Reconciler.PassAgrees` | app_server/reconciler.py:81-104 | After a covering pass over a store that showed nothing unbooked, Redis shows a seat confirmed for a user if and only if it is booked by that user |
| `Reconciler.TicketingReconciler.ExpireStaleHolds` | app_server/reconciler.py:62-79 | No seat of a reported expired hold stays held by its user unless an error is reported; confirmed seats are untouched |
| `Reconciler.TicketingReconciler.RepairConfirmedSeats` | app_server/reconciler.py:81-104 | Listed reservations are shown afterwards unless missed, the others are as before, and the report is exact |
| `Reconciler.TicketingReconciler.RunOnce` | app_server/reconciler.py:56-60 | Convergence: with Redis reachable and a limit of at least the number of confirmed rows, every one is shown confirmed for its user; nothing shown is ever lost |
| `Reconciler.TicketingReconciler.RunFromReachable` | app_server/reconciler.py:56-104 | From every reachable state of the booking system, a pass by itself with Redis reachable and a sufficient limit ends with both stores in exact agreement |
| `Reconciler.TicketingReconciler.RunTwice` | app_server/reconciler.py:56-104 | A second pass straight after such a pass repairs nothing and reports no error |

## Left out

- Hypothesis of the booking theorems: a confirmation request matches the reservation it names; the code does not compare them (app_server/service.py:313-333), and `Booking.ConfirmationIsSafeIff` gives the exact condition.
- Hypothesis of the booking and life-cycle theorems: a database service call is one step; the unguarded single-row updates make this necessary, as `Ticketing.InterleavedRunIff` shows. What needs no such hypothesis is in `Repository`.
- Hypothesis on seats: event ids contain no colon (see `Keys.SeatKeyCollision`); generic SET, DEL and EXPIRE do not touch seat keys in the booking and reconciler theorems.
- Hypothesis of `Engine.StorageEngine.Replay`: EXPIRE is not applied to queue keys (see `Engine.QueueCommandExact`).
- Return of Redis to a state from before a confirmation: the seat is then not shown until a reconciler pass; the theorems on what Redis shows exclude it, those on safety do not.
- Reconciler limits: a pass whose limit is below the number of confirmed rows never reaches the rows after the limit; the theorem says that those are as before.
- The reconciler may release a newer hold of the same user, since it compares users and not reservations (app_server/reconciler.py:74-75); several HELD rows per seat are possible. Neither is excluded by any statement here.
- Booking flows and the executor are transition systems on values, because what matters in them is the interleaving of steps; thread objects, locks and the in-place fields of `CommandTask` are not modelled as such.
- Executor stop and restart, and liveness after a shutdown: a task queued behind the stop marker is never run.
- The rest of a chunk in which a protocol error occurs: the server drops whatever happens to be buffered, so what is lost depends on the chunks; `WireLaws.SessionRecovers` says what comes after it.
- A failure of the last seat read of a hold (app_server/service.py:250-254) has no compensation; such a purchase counts as ended in its hold phase.
- In a flow, "the seat is not listed by the database" is treated like "no answer", and the separate check that the event exists is part of the check that the seat exists.
- Sockets, threads, HTTP routing, the HTTP client and schema validation.
- The command dispatcher and its arity checks (commands/handler.py): the handler is a parameter of the server loop and the executor, and every theorem about them holds for any handler.
- JSON text of seat and queue records: values are classified as seat, queue or other text; option-token normalisation of EXPIRE is left out too.
- Floating-point rounding of times, conversion of other time zones to UTC, and the digit limit of integer parsing.
- Text with lone surrogates: Dafny characters are Unicode scalar values.
- The columns created_at, updated_at, confirmed_at and cancelled_at and the order of query results; the theorems hold for every order.
- Rows whose expires_at is absent: the service always stores one.
- SQLite itself and the snapshot file: tables are maps with keys, references and the unique index; saving replaces all rows and loading returns them.
- Seat views and conflict messages for display, seeding of demo data, logs, traces, the frontend and scripts: no request to Redis or the database and no theorem depends on them, except that seeding deletes the database's truth and is therefore not among the runs.
