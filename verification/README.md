# Ticket booking: a verified model

This project models how the ticketing services sell seats: write-api accepts a request, holds
concert seats in Redis and puts a message on an SQS FIFO queue; a worker books it in a MySQL
transaction, stores a result under the booking_ref and acknowledges; clients poll; refunds cancel;
and the read side caches what remains. It also models the stock counter of the older reservation
service. Deliveries may repeat and overlap, workers may die between any two effects and Redis may
lose any key of the booking state at any time. Where a call changes something (a send, a key write, a
hold pipeline, a commit, a counter update), it may raise without or after having taken effect; a cache
warmup may end after any of its writes.

`dafny verify dfyconfig.toml` checks the whole project.

| module | part of the system |
|---|---|
| `Wrappers`, `Collections`, `Sequences`, `SeatOrder` | options, results, sums over maps, filters, sorted lists |
| `SeatKeys` | `r-c` seat keys, their parsers, the duplicate-free seat list |
| `BookingTables`, `Database`, `Refunds` | the tables theaters and concerts share, their constraints, one connection, refunds |
| `ConcertBooking`, `TheaterBooking` | the two worker transactions, capacity, conservation |
| `BookingMessages`, `BookingProtocol` | messages and results; the step system of queue, workers, keys and refunds |
| `BookingStatus`, `WorkerDelivery` | what polls see and when results are true; the handler as code |
| `CommitRequests` | the commit endpoints, sending, the status poll |
| `SeatHold`, `SeatHoldProtocol` | the Redis hold as code and as an interleaved timed protocol |
| `TheaterReads`, `TheaterSlices`, `TheaterCache` | the theater bootstrap, its per-theater slices, their cache |
| `ConcertReads`, `SnapshotFill` | reserved lookup, payloads and bootstrap; single flight, TTL, staleness |
| `StockCounter` | lock, decrement, check, send, compensate |
| `Witnesses` | concrete reachable states in which the promises that fail are seen to fail |

Code that changes state (transactions, handlers, the hold, the caches, the counter) appears as
classes and methods with loops, each tied to a function of the old state; the claims about runs are
lemmas about step systems built from the same functions, and `DeliveryIsPath`, `TryHoldIsPath` and
`CreateReservation` connect the two.

## Where the code does less than its comments say

Each of these is kept as the code has it, with the exact condition and a concrete case proved:

- A refused hold is meant to be atomic. It releases only the seats before the first refused one; what
  stays held is exact, run alone (`RefusedHoldAtomicIff`, `PartialRollbackWitness`) and with other
  requests in between (`RefusedRequestKeeps`).
- A release is meant to leave other requests' holds alone. In every run the first delete to take one
  away is the first late regrant: it comes at or after the end of its own request's life, and a seat
  it read as its own was granted since then to a request that still has it (`DeleteHarmlessIff`). A
  run keeps every live hold iff it contains no late regrant (`RunKeepsKeysIff`), and without one two
  live HELD requests never share a seat (`SharedSeatHasCulprit`, `LateReleaseBreaksExclusion`).
- A refund is meant to return the seats. It frees them but not the counter, so they may be answered
  SOLD_OUT, and a CLOSED schedule stays closed (`RemainVersusFreeSeats`, `RefundedSeatsResaleIff`,
  `FreeSeatSoldOut`). A refund answered 500 is done if its commit raised after it was applied
  (`RunRefund`).
- A result is meant to tell what happened. An exception of the first OK write, or a commit whose
  acknowledgement is lost, stores ERROR for a committed booking; a lost result key or a failed
  duplicate check lets a redelivery store DUPLICATE_SEAT or SOLD_OUT over it (`DeliveryTruthfulIff`,
  `FirstWriteFailureMisreports`).
- Polling is meant never to lose a live booking. It does iff the worker's write and delete fall
  between the poll's two reads, or the marking as queued had failed and there was no result yet
  (`PollAnswersUnknownIff`, `PollMissesBooking`).
- The batch lookup is meant to prefer Redis. When Redis answers only some shows, the answered ones
  get their database rows a second time (`BatchEqualsPointwiseIff`, `MixedListDistinctIff`,
  `SeatListedTwice`).
- Cache updates after bookings and refunds swallow their failures; when a lost delete or a warmup cut
  short leaves stale data is exact (`LostCacheUpdateIff`, `LostDeleteLeavesStale`).
- The reservation service credits the counter in its except clause even when nothing was debited
  (`BuyOutOversellsIff`, `LockFailureOversells`).

Details worth knowing: an update that takes zero seats changes no row, so an empty theater list is
SOLD_OUT; a violated CHECK is not an integrity error for the client library, so an empty concert
list is ERROR; a missing user violates a foreign key and is reported as DUPLICATE_SEAT.

## Model

| member | source | states |
|---|---|---|
| `SeatKeys.CollectSeats` | services/ticketing-was/concert/concert_write.py:106-118 | the loop over the submitted keys answers None iff some key is unreadable, and otherwise the parsed list with each seat kept once, in order of first mention |
| `SeatKeys.ParseFormat` | services/worker-svc/main.py:265-270 | a printed `r-c` key of any positive row and column is parsed back to the same seat |
| `SeatKeys.ParseIff` | services/ticketing-was/concert/concert_write.py:31-40 | a key is read as a seat iff, stripped, it is exactly one dash between two texts that are positive integers, and the seat is those two numbers |
| `SeatKeys.StripExact` | services/ticketing-was/concert/concert_write.py:31-40 | stripping removes white space, and all of it that is at either end |
| `SeatKeys.SpacesAre` | services/ticketing-was/concert/concert_write.py:31-40 | which characters count as white space |
| `SeatKeys.DigitsIff` | services/ticketing-was/concert/concert_write.py:31-40 | a text without sign reads as a number iff it is digits with single underscores between some of them |
| `SeatKeys.GroupingKeepsValue` | services/ticketing-was/concert/concert_write.py:31-40 | an underscore between digits does not change the number |
| `SeatKeys.ToIntExact` | services/ticketing-was/concert/concert_write.py:31-40 | a part reads as the number of its grouped digits, after white space and one plus sign, and otherwise as 0 |
| `SeatKeys.ParseAllFormatAll` | services/worker-svc/main.py:490-491 | parsing a whole list of printed keys drops nothing and keeps the order |
| `SeatKeys.FirstOccurrencesDistinct` | services/ticketing-was/concert/concert_write.py:115-118 | removing repetitions keeps exactly the members, each once |
| `SeatKeys.FirstOccurrencesOrder` | services/ticketing-was/concert/concert_write.py:106-118 | the seats kept are in the order in which they were first mentioned |
| `SeatKeys.SeatListIsLossless` | services/ticketing-was/concert/concert_write.py:106-121 | for every readable request the worker's list is the accepted list: same seats, same order, each once, all positive, and not empty if the request was not |
| `CommitRequests.MessageReadsBack` | services/worker-svc/main.py:484-492 | the body either endpoint sends is read by the worker as a message with exactly the wanted list |
| `CommitRequests.BookingClient.MarkQueued` | services/ticketing-was/sqs_client.py:81-93 | the queued key is live afterwards iff the state is enabled and the write took effect; an exception changes nothing for the caller |
| `CommitRequests.BookingClient.Send` | services/ticketing-was/sqs_client.py:96-136 | a ref is returned iff the send was acknowledged, the message is on the queue iff it was accepted, only a returned ref is marked, and the ref is the supplied one iff that is usable |
| `CommitRequests.BookingClient.GetStatus` | services/ticketing-was/sqs_client.py:151-179 | the answer to every poll: a stored result is returned as it is; in progress iff none is stored and the queued key is live and readable; invalid and unknown otherwise; an exception iff the result read raises |
| `CommitRequests.BookingClient.CommitConcert` | services/ticketing-was/concert/concert_write.py:88-163 | a request for seats none of which is held is queued with its seats held, one for a held seat is DUPLICATE_SEAT, and every other reply in branch order; a raising hold pipeline is a server error with nothing sent, and an exception of the send leaves the hold and possibly a queued message under an untold ref |
| `CommitRequests.BookingClient.CommitTheater` | services/ticketing-was/theater/theaters_write.py:72-125 | the same for theaters, without sale state and hold |
| `CommitRequests.CommittedRequestBooksIff` | services/ticketing-was/concert/concert_write.py:106-121 | an accepted concert request books iff the show exists, all named seats are in the grid and none is owned, whatever repetitions it contained |
| `BookingTables.InsertSeatsExact` | db-schema/create.sql:129-143 | the unique ACTIVE index alone decides seat inserts: they go in iff the seats are distinct and none is taken, else the duplicate key error |
| `BookingTables.StatementErrors` | db-schema/create.sql:99-143 | which constraint stops a single insert of a booking, a seat or a payment |
| `BookingTables.InsertAllExact` | services/worker-svc/main.py:518-555 | exactly when booking, seat and payment inserts go through, and which error of the schema stops them otherwise |
| `BookingTables.OwnersAppend` | db-schema/create.sql:222-245 | a committed booking adds exactly its claims to the map from (event, seat) to owner |
| `BookingTables.OwnersCancel` | services/ticketing-was/user/user_write.py:148-151 | a refund frees exactly the refunded booking's seats |
| `BookingTables.BookedKeepsInv` | services/worker-svc/main.py:415-444 | a booking keeps the table invariant and its rows are its seats in order |
| `BookingTables.RefundKeepsInv` | services/ticketing-was/user/user_write.py:65-78 | a refund keeps the table invariant: all rows cancelled, payment 'N', same number of rows |
| `BookingTables.RefundExact` | services/ticketing-was/user/user_write.py:62-78 | a refund changes its booking's status, its payment and the status of its seat rows, and nothing else |
| `BookingProtocol.ConcertRefundIsFinal` | services/ticketing-was/user/user_write.py:118-123 | after a refund in a run, at every later state the booking is the same cancelled row, every further refund of it is refused to anybody, and none can happen |
| `BookingProtocol.TheaterRefundIsFinal` | services/ticketing-was/user/user_write.py:55-60 | the same for theater bookings |
| `BookingTables.PaidOwnsItsSeats` | db-schema/create.sql:222-245 | every seat row of a paid booking is owned by that booking |
| `BookingTables.NoDoubleSale` | db-schema/create.sql:143 | two paid bookings of one event that share a seat are the same booking |
| `BookingTables.ActiveSeatsDistinct` | db-schema/create.sql:244 | the ACTIVE seats of an event are pairwise distinct and are the owned ones |
| `Database.Connection.InsertBooking` | services/worker-svc/main.py:518-523 | the insert with its CHECK and foreign keys; the id comes from AUTO_INCREMENT even if the insert fails |
| `Database.Connection.InsertSeatRows` | services/worker-svc/main.py:540-548 | the multi-row insert leaves either all rows or none |
| `Database.Connection.Commit` | services/worker-svc/main.py:564 | the transaction's tables become the committed ones |
| `Database.Connection.Rollback` | services/worker-svc/main.py:583 | the transaction's tables return to its start |
| `Database.InsertSeatsPrefixFails` | services/worker-svc/main.py:432-437 | the failure of one single-row insert is the failure of the whole series |
| `Refunds.RunRefund` | services/ticketing-was/user/user_write.py:39-88 | the reply read off the booking: not found iff absent or another user's, already cancelled iff CANCEL, refunded iff PAID and the link and commit hold; what the tables then are, and a commit that raises, answered 500 with the refund done iff it was applied |
| `BookingProtocol.PaidIsRefundable` | services/ticketing-was/user/user_write.py:55-80 | in every reachable state a booking can be refunded iff it is PAID and by its owner alone, and the refund cancels it and frees its seats and nobody else's |
| `ConcertBooking.RunConcertStatements` | services/worker-svc/main.py:494-559 | the statements of the transaction, with the link failing anywhere, end as the transaction function says or with a lost link, and never touch the committed tables |
| `ConcertBooking.ConcertCommitsIff` | services/worker-svc/main.py:494-564 | with no infrastructure error an attempt commits iff show and user exist and the seats are non-empty, in the grid, pairwise distinct and unowned |
| `ConcertBooking.ConcertOutcomes` | services/worker-svc/main.py:494-564 | which guard refuses an attempt, which constraint stops it, and otherwise that it commits, each iff a condition on the tables |
| `ConcertBooking.ConcertCommitEffect` | services/worker-svc/main.py:518-564 | a commit is exactly one booking: invariant kept, its seats recorded, its claims added |
| `ConcertBooking.ConcertTablesRefineSeatMap` | db-schema/create.sql:222-245 | every change of the tables is a claim or release step of a plain map from seat to owner |
| `ConcertBooking.ConcertStepKeepsGrid` | services/worker-svc/main.py:512-516 | every ACTIVE or cancelled seat row stays inside its show's grid |
| `ConcertBooking.GridSize` | db-schema/create.sql:201 | the grid of a show has seat_rows * seat_cols places |
| `ConcertBooking.CapacityHolds` | db-schema/create.sql:199-201 | ACTIVE seats of a show never exceed seat_rows * seat_cols, with no counter |
| `TheaterBooking.FindSeats` | services/worker-svc/main.py:391-403 | resolving the seats gives their ids in order, or None iff the hall lacks one |
| `TheaterBooking.RunTheaterStatements` | services/worker-svc/main.py:373-451 | the statements of the transaction end as the transaction function says or with a lost link |
| `TheaterBooking.TheaterCommitsIff` | services/worker-svc/main.py:373-453 | an attempt commits iff schedule, user and places exist, the list is non-empty and distinct, the places are free and the counter suffices |
| `TheaterBooking.TheaterOutcomes` | services/worker-svc/main.py:373-453 | the same for theaters, with the counter |
| `TheaterBooking.TheaterCommitEffect` | services/worker-svc/main.py:405-453 | a commit adds one booking, takes its seats out of the counter and closes the schedule at zero |
| `TheaterBooking.TheaterStepKeepsInv` | db-schema/create.sql:93-97 | bookings and refunds keep conservation, the CHECK on remain_count and the table invariant; the counter never rises, CLOSED is never undone and no cancelled booking is revived |
| `TheaterBooking.RemainVersusFreeSeats` | services/ticketing-was/user/user_write.py:62-80 | remain_count lies between 0 and the free seats, trails them by what the seed lacked plus the refunded seats, and equals them iff there is neither |
| `TheaterBooking.RefundedSeatsResaleIff` | services/ticketing-was/user/user_write.py:36-80 | after a refund a request for any of the refunded seats, in any order, commits iff the column still has that many, and is SOLD_OUT iff not, although the seats are free |
| `TheaterBooking.SeatsOfBookingDistinct` | db-schema/create.sql:143 | a paid booking holds no seat twice |
| `Witnesses.FreeSeatSoldOut` | services/ticketing-was/user/user_write.py:62-80 | a run that books and refunds the only seat of a hall: no seat is taken, and a request for it is SOLD_OUT |
| `BookingProtocol.FailedAttemptChangesNothing` | services/worker-svc/main.py:582-588 | an attempt that does not commit changes nothing and stores no OK |
| `BookingProtocol.ConcertDocuments` | services/worker-svc/main.py:494-590 | which document a concert attempt stores, read off the tables: a missing user is told as DUPLICATE_SEAT, an empty list as ERROR |
| `BookingProtocol.TheaterDocuments` | services/worker-svc/main.py:373-469 | the same for theaters, where an empty list is SOLD_OUT |
| `BookingProtocol.RunKeepsTables` | services/worker-svc/main.py:300-353 | the table invariants of both domains hold in every reachable state of the protocol |
| `BookingProtocol.RunRefinesSeatMap` | services/worker-svc/main.py:484-590 | over every run a concert refund releases exactly its booking, a committing concert attempt claims exactly its message's seats for its booking, and every other action, crash or loss leaves the map from seat to owner as it is |
| `BookingProtocol.RunNeverOversellsShow` | db-schema/create.sql:199-201 | in every reachable state a show's ACTIVE seats fit its grid |
| `BookingProtocol.RunConservesRemain` | services/worker-svc/main.py:405-451 | in every reachable state remain_count plus all seats ever booked is the seeded count, and later counts are not higher |
| `BookingProtocol.RunStatusExact` | services/worker-svc/main.py:446-451 | in every reachable state a schedule is CLOSED iff it was seeded so or bookings brought its counter to zero, and otherwise has its seeded status |
| `BookingProtocol.RunKeepsOrigins` | services/worker-svc/main.py:328-353 | every booking of a reachable state stems from a sent message and has that message's event, user and seats |
| `BookingProtocol.OneLiveConcertBookingPerRef` | services/worker-svc/main.py:328-353 | at most one non-cancelled concert booking stems from one booking_ref, in every reachable state |
| `BookingProtocol.OneLiveTheaterBookingPerRef` | db-schema/create.sql:143 | the same for theaters |
| `BookingStatus.OkResultNamesBooking` | services/worker-svc/main.py:453-459 | a stored OK names a booking committed for its ref with exactly the message's seats |
| `BookingStatus.DeletedOnlyAfterResult` | services/worker-svc/main.py:599-628 | a message has left the queue only if a result for its ref was written before |
| `BookingStatus.LossTakesKey` | services/worker-svc/main.py:289-297 | a key whose TTL runs out, or that is lost, is gone, and nothing else changes |
| `BookingStatus.NoStatusGap` | services/ticketing-was/sqs_client.py:128-136 | from the moment a client holds the ref until one of its keys is lost, the queued or the result key is live; if the marking failed, there is no queued key and the message is still queued or its result is live |
| `BookingStatus.PollAnswersUnknownIff` | services/ticketing-was/sqs_client.py:161-178 | in that window a poll answers UNKNOWN_OR_EXPIRED iff the worker's first write and its delete of the queued key fall between the two reads, in that order; or, the marking having failed, iff there was no result yet |
| `BookingStatus.PollDelivers` | services/ticketing-was/sqs_client.py:161-178 | over runs a poll answers with a document iff one was stored at its first read, with that one, and a stored OK names a committed booking with the message's seats; in progress iff none was and the queued key is live, and then the message is still queued or its result has arrived unless a key was lost |
| `Witnesses.PollMissesBooking` | services/ticketing-was/sqs_client.py:161-178 | a run in which nothing is lost and a poll of a booking stored as OK answers UNKNOWN_OR_EXPIRED |
| `BookingStatus.ResultsAreTruthful` | services/worker-svc/main.py:453-467 | without overlapping deliveries, a duplicate check that fails while a result is stored, a crash or lost acknowledgement before the OK is stored and loss of a stored OK, a stored result is OK iff the booking committed |
| `WorkerDelivery.BookingStore.StoreResult` | services/worker-svc/main.py:289-297 | an exception of the write is passed on, one of the delete is not, and the keys change accordingly |
| `WorkerDelivery.EndTransaction` | services/worker-svc/main.py:564-588 | commit, rollback and the document to store, for every way the transaction and its commit can end |
| `WorkerDelivery.ProcessConcert` | services/worker-svc/main.py:484-590 | the whole concert handler leaves the tables and keys its specification names |
| `WorkerDelivery.ProcessTheater` | services/worker-svc/main.py:361-469 | the whole theater handler, likewise |
| `WorkerDelivery.HandleMessage` | services/worker-svc/main.py:300-353 | duplicate check, dispatch, tables, keys and acknowledgement over both databases; acknowledged iff skipped or one of its result writes was, and then with the queued key deleted as the delete went |
| `WorkerDelivery.DeliveryTruthfulIff` | services/worker-svc/main.py:564-588 | from any reachable state, a delivery that runs alone and is acknowledged leaves a result that is OK iff the ref has a committed booking at the end, exactly when: it skipped and the stored result was so; or it committed and its commit and first write were acknowledged; or it did not commit and no earlier delivery had |
| `WorkerDelivery.FirstWriteFailureMisreports` | services/worker-svc/main.py:585-587 | the departing case, from any reachable state: an exception of the first OK write stores ERROR for a booking that is committed at the end, and the message is acknowledged |
| `WorkerDelivery.RepeatedConcertAttempt` | services/worker-svc/main.py:582-584 | a repeated attempt of a still paid booking always ends as DUPLICATE_SEAT and changes nothing |
| `WorkerDelivery.RepeatedTheaterAttempt` | services/worker-svc/main.py:405-413 | a repeated theater attempt ends as DUPLICATE_SEAT, or SOLD_OUT if the counter is too low, and changes nothing |
| `WorkerDelivery.DeliveryIsPath` | services/worker-svc/main.py:300-353 | the handler run alone is a path of the step system with the same tables, keys, acknowledgement and record of commits, so what holds over runs holds of it |
| `SeatHold.HoldStore.AcquireAll` | services/ticketing-was/concert/seat_hold.py:41-45 | the SET NX pipeline takes the free keys and reports for each seat whether it was absent |
| `SeatHold.GrantedIff` | services/ticketing-was/concert/seat_hold.py:41-45 | the reply for a seat is true iff the keys set before it in the pipeline left it free |
| `SeatHold.HoldStore.ReleaseSeats` | services/ticketing-was/concert/seat_hold.py:72-87 | the release deletes exactly the keys its owner read found to be its own, unless one of its pipelines raises before |
| `SeatHold.HoldStore.TryHoldSeats` | services/ticketing-was/concert/seat_hold.py:23-69 | HELD iff the pipelines returned and every seat was free and asked for once, REFUSED iff some was not, and what is then in Redis; what an exception of any pipeline, applied or not, leaves |
| `SeatHold.HoldTakesSeats` | services/ticketing-was/concert/seat_hold.py:37-68 | a HELD request has its keys for max(10, ttlSec) seconds, no other key is touched, and the reserved set has gained its seats and no other |
| `SeatHold.ReleaseExact` | services/ticketing-was/concert/seat_hold.py:72-87 | a release removes the keys of its seats that name the owner and takes the same seats out of the reserved set, and nothing else |
| `SeatHold.AcquireHolds` | services/ticketing-was/concert/seat_hold.py:41-45 | the pipeline never overwrites a key and gives each absent one to the request |
| `SeatHold.RefusedHoldLeaves` | services/ticketing-was/concert/seat_hold.py:47-53 | run alone, a refused request that ends while its keys live leaves, beyond what was held before and has not expired, exactly the free seats after the first refused one |
| `SeatHold.RefusedHoldAtomicIff` | services/ticketing-was/concert/seat_hold.py:51 | the promised all-or-nothing, judged when a request run alone ends and whatever else expires, holds iff its own TTL has run out by then or no seat after the first refused one was free |
| `SeatHold.PartialRollbackWitness` | services/ticketing-was/concert/seat_hold.py:47-53 | for any taken and free seat the request for both, in that order, leaves the free one held |
| `SeatHoldProtocol.RefusedRequestKeeps` | services/ticketing-was/concert/seat_hold.py:47-53 | with any requests in between and no late regrant, a refused request owns until its end exactly the free seats after the first refused one, so nothing iff there is none |
| `SeatHoldProtocol.TryHoldIsPath` | services/ticketing-was/concert/seat_hold.py:23-87 | the hold as code, run alone with any pipeline raising, is a path of the step system that ends Held after HELD and Refused after REFUSED, so what holds over runs holds of it |
| `SeatHoldProtocol.HeldRequestsExclude` | services/ticketing-was/concert/seat_hold.py:41-53 | under every interleaving, two HELD requests that share a seat own it at disjoint times as long as no delete is a late regrant |
| `SeatHoldProtocol.ReservedCoversHolds` | services/ticketing-was/concert/seat_hold.py:55-68 | with one TTL and no late regrant the reserved set contains every seat of every live HELD request, so its size is at least their number |
| `SeatHoldProtocol.DeleteHarmlessIff` | services/ticketing-was/concert/seat_hold.py:80-87 | in every run, the first delete to take a key from another live request is the first late regrant: at or after its own request's end, with one of the seats it read granted since that end to a request that lives and has it |
| `SeatHoldProtocol.RunKeepsKeysIff` | services/ticketing-was/concert/seat_hold.py:80-87 | in a run every live request owns its keys at every instant iff no delete is a late regrant |
| `SeatHoldProtocol.TimelyRunIsClean` | services/ticketing-was/concert/seat_hold.py:72-87 | a run whose releases finish within their TTL has no late regrant and keeps exclusion |
| `SeatHoldProtocol.SharedSeatHasCulprit` | services/ticketing-was/concert/seat_hold.py:80-87 | whenever two live HELD requests share a seat, an earlier delete was a late regrant |
| `SeatHoldProtocol.LateReleaseBreaksExclusion` | services/ticketing-was/concert/seat_hold.py:80-87 | a run with one late release after which two live HELD requests own the same seat |
| `TheaterReads.FetchBootstrap` | services/ticketing-was/theater/theaters_read.py:109-232 | the loops compute the movie-filtered schedules, the halls and movies they use, and the grouped reserved seats of the query results |
| `TheaterReads.CollectReserved` | services/ticketing-was/theater/theaters_read.py:212-224 | the dictionary has an entry iff a valid schedule has a shown row, and lists its rows in query order |
| `TheaterReads.GroupsHold` | services/ticketing-was/theater/theaters_read.py:212-224 | the dictionary lists exactly the seats of valid schedules whose booking is not cancelled and whose place is real, with no empty list |
| `TheaterReads.CollectMovies` | services/ticketing-was/theater/theaters_read.py:207-210 | the movies are the ascending ids of the listed schedules, each once |
| `TheaterReads.QueryGroups` | services/ticketing-was/theater/theaters_read.py:152-160 | grouping the globally sorted join by schedule gives each schedule's own sorted list of ACTIVE places |
| `TheaterReads.BuildPayload` | services/ticketing-was/theater/theaters_read.py:109-232 | on one snapshot of a reachable database the assembly equals the payload defined schedule by schedule |
| `TheaterReads.RowShows` | services/ticketing-was/theater/theaters_read.py:133-150 | a row shows its schedule's hall, movie and total, what the ACTIVE seats leave of the total but never less than 0, and CLOSED iff that is 0 or stored so |
| `TheaterReads.BootstrapLists` | services/ticketing-was/theater/theaters_read.py:109-210 | the bootstrap lists the schedules that are OPEN or CLOSED and show a public movie, each once, with exactly the halls and movies they use |
| `TheaterReads.ReservedIsExact` | services/ticketing-was/theater/theaters_read.py:152-160 | a reserved list is strictly ascending and holds exactly the places of the owned seats |
| `TheaterReads.BootstrapAccounts` | services/ticketing-was/theater/theaters_read.py:133-160 | a listed row shows its schedule's hall, movie and total; remain_count plus number of reserved seats is that total, and the status shown is the stored one unless no seat remains |
| `TheaterSlices.SliceIsLocalBuild` | services/ticketing-was/theater/theaters_read.py:266-290 | a theater's slice is the payload built from that theater's halls and schedules alone |
| `TheaterSlices.SlicesPartition` | services/ticketing-was/theater/theaters_read.py:266-290 | each hall and schedule of the bootstrap is in exactly one slice, that of its listed theater |
| `TheaterSlices.SliceIsClosed` | services/ticketing-was/theater/theaters_read.py:276-290 | hall, movie and reservation references of a slice resolve inside it, nothing in it is unused, and reserved lists are taken over unchanged |
| `TheaterSlices.OtherSlicesUnchanged` | services/worker-svc/main.py:471-478 | a change of one schedule changes no other theater's slice |
| `TheaterCache.BookingCaches.GetBootstrap` | services/ticketing-was/theater/theaters_read.py:323-332 | the cached value, or a fresh build that is then cached |
| `TheaterCache.BookingCaches.GetDetail` | services/ticketing-was/theater/theaters_read.py:347-360 | the cached detail; a miss of a listed theater writes both keys from one build and returns its slice; an unknown theater writes nothing |
| `TheaterCache.DetailMissWritesBoth` | services/ticketing-was/theater/theaters_read.py:347-360 | from any cache, a missed detail of a listed theater leaves both keys current and every other detail as it was |
| `TheaterCache.BookingCaches.Invalidate` | services/worker-svc/main.py:471-478 | deletes the bootstrap and, for a positive id, the theater's detail |
| `TheaterCache.BookingCaches.Warmup` | services/ticketing-was/theater/theaters_read.py:299-312 | rewrites the bootstrap and then the detail of every theater from one build, up to the write that raises |
| `TheaterCache.WarmupLeaves` | services/ticketing-was/theater/theaters_read.py:299-312 | after its writes the bootstrap and the written theaters' details, cached before or not, are those of the build, and details of unlisted theaters are untouched |
| `TheaterCache.WarmedIsCoherent` | services/ticketing-was/user/user_write.py:90-93 | after a warmup that came to its end everything cached is current |
| `TheaterCache.InvalidatedIsCoherent` | services/worker-svc/main.py:471-478 | deleting bootstrap and booked theater's detail is enough: what stays cached is current |
| `TheaterCache.CacheStaysCoherent` | services/ticketing-was/theater/theaters_read.py:323-360 | after any sequence of views, bookings, refunds and evictions with their cache updates done, the cache equals a fresh build and its slices |
| `TheaterCache.LostCacheUpdateIff` | services/worker-svc/main.py:473-480 | when a booking's delete is lost or a refund's warmup ends early, the cache is stale iff the touched schedule is listed and the bootstrap or its theater's detail was cached and not rewritten |
| `Witnesses.LostDeleteLeavesStale` | services/worker-svc/main.py:473-480 | a view, then a booking whose delete is lost: the cached bootstrap is stale |
| `TheaterCache.RunKeepsPlaces` | db-schema/create.sql:118-144 | in every reachable database each seat row points to a seat of its schedule's hall |
| `TheaterCache.RunBootstrapAccounts` | services/ticketing-was/theater/theaters_read.py:133-184 | the accounting of a bootstrap in every reachable database of the booking protocol, with the seeded total |
| `ConcertReads.ReservedByShow` | services/ticketing-was/concert/concert_read_cache.py:204-239 | the lookup returns, for every show, the list the specification names, in the all-answered and the mixed case |
| `ConcertReads.BatchEqualsPointwiseIff` | services/ticketing-was/concert/concert_read_cache.py:204-239 | a batch lookup equals the per-show lookups iff Redis answered all shows, none listed twice, or no answered show has database rows |
| `ConcertReads.MixedList` | services/ticketing-was/concert/concert_read_cache.py:208-239 | what a mixed batch lists of a show: Redis's seats in order, then its database seats in order |
| `ConcertReads.PayloadShows` | services/ticketing-was/concert/concert_read_cache.py:242-265 | a payload shows the row's total, the list, what the list leaves of the total, and CLOSED iff that is nothing or the row is CLOSED |
| `ConcertReads.LookupOneAscending` | services/ticketing-was/concert/concert_read_cache.py:209-213 | show by show the list is strictly ascending |
| `ConcertReads.MixedListDistinctIff` | services/ticketing-was/concert/concert_read_cache.py:232-237 | in a mixed batch an answered show's list is duplicate-free iff Redis lists none of its sold seats |
| `Witnesses.SeatListedTwice` | services/ticketing-was/concert/concert_read_cache.py:232-237 | a run after which a seat both held and sold is listed twice in a batch of two shows, and once alone |
| `ConcertReads.DbPayloadAccounts` | services/ticketing-was/concert/concert_read_cache.py:242-265 | from the database the shown total is the grid, the shown remain is never clamped and accounts for every seat |
| `ConcertReads.RunPayloadAccounts` | services/ticketing-was/concert/concert_read_cache.py:242-265 | the same in every reachable database of the booking protocol, and the status is the row's unless no seat remains |
| `ConcertReads.MissShowsGrid` | services/ticketing-was/concert/concert_read_cache.py:286-321 | a miss of a known show in any reachable state: total is the grid, the list is Redis's or that of the owned seats, remain is what it leaves of the grid, CLOSED iff nothing or stored so |
| `ConcertReads.StaleRowHarmless` | services/ticketing-was/concert/concert_read_cache.py:309-315 | the row a miss was called with does not influence the payload of a known show |
| `ConcertReads.MgetValues` | services/ticketing-was/concert/concert_read_cache.py:52-59 | chunked reading gives for each key what the store held when its chunk was read |
| `ConcertReads.SnapshotStore.Fill` | services/ticketing-was/concert/concert_read_cache.py:286-321 | a hit returns the snapshot; a miss stores and returns the payload of the re-read row and the list: its total, remain and status are stated over the tables |
| `ConcertReads.SnapshotStore.Bootstrap` | services/ticketing-was/concert/concert_read_cache.py:389-419 | every slot is filled, in row order, from the cache or by its own miss with the batch's list and the stored total, and is cached afterwards |
| `ConcertReads.BootstrapEqualsSingleIff` | services/ticketing-was/concert/concert_read_cache.py:409-417 | the batch path serves what the single-show path would iff, among the misses, Redis answered all or none with database rows |
| `SnapshotFill.SnapshotTtl` | services/ticketing-was/concert/concert_read_cache.py:62-71 | with the floating-point division as it rounds: no TTL iff the base is not positive, otherwise at least 1, and for any base below 2^44 seconds a draw between base * (100 - j) / 100 and base * (100 + j) / 100, each at least 1, j the jitter kept within 0 and 50 |
| `SnapshotFill.TtlWindow` | services/ticketing-was/concert/concert_read_cache.py:66-70 | the two ends lie around the base, exactly as far as the jitter says, and never below half of it |
| `SnapshotFill.SingleFlight` | services/ticketing-was/concert/concert_read_cache.py:286-321 | with no delete, expiry or failed load, concurrent misses make one load and all return its payload |
| `SnapshotFill.FailedLoadUnblocks` | services/ticketing-was/concert/concert_read_cache.py:302-321 | a load that fails frees the lock for whoever waits and caches nothing |
| `SnapshotFill.ServedAgeBounded` | services/ticketing-was/concert/concert_read_cache.py:275-283 | whatever deletes, expiries and failures happen, a snapshot is served at most the largest TTL plus its fill time after its first database read |
| `StockCounter.RunConserves` | services/reserv-svc/main.py:123-197 | counter, in-flight decrements, enqueued seats and leaks add up to initial stock plus phantom credits, for every interleaving and every failing call |
| `StockCounter.NeverOversells` | services/reserv-svc/main.py:134-168 | if failures only follow a decrement that stays and a message that did not go out, the enqueued seats never exceed the initial stock |
| `StockCounter.BuyOutOversellsIff` | services/reserv-svc/main.py:186-188 | with nothing under way, buying out the counter oversells iff the phantom credits exceed the leaks |
| `StockCounter.LockFailureOversells` | services/reserv-svc/main.py:186-188 | one raising lock call and the stock sells one seat more than it had |
| `StockCounter.SameSeatListExcluded` | services/reserv-svc/main.py:117-132 | while locks live and no failure is undebited, one seat list is under way or enqueued at most once |
| `StockCounter.ExpiredLockIsGranted` | services/reserv-svc/main.py:123-132 | once a lock has run out the next request for the same seat list gets it |
| `StockCounter.RunAloneConserves` | services/reserv-svc/main.py:121-197 | a request served alone, with every call failing as it may, conserves the stock |
| `StockCounter.ReservationStore.Compensate` | services/reserv-svc/main.py:186-197 | the except clause: unlock, then credit, and what an exception inside it leaves |
| `StockCounter.ReservationStore.GiveBack` | services/reserv-svc/main.py:136-146 | the sold-out branch: refused with the stock given back iff its own two calls returned, and what it leaves otherwise |
| `StockCounter.ReservationStore.TakeStock` | services/reserv-svc/main.py:134-197 | from the granted lock to the reply: accepted iff the stock sufficed and the calls returned, sold out iff it did not, and the counter and queue in every case |
| `StockCounter.ReservationStore.SendMessage` | services/reserv-svc/main.py:155-184 | accepted iff the send returned; the seats are enqueued iff it took effect |
| `StockCounter.ReservationStore.CreateReservation` | services/reserv-svc/main.py:121-197 | locked iff the key was; accepted iff the stock sufficed and every call returned, with the seats enqueued and debited; sold out iff it did not, with nothing changed; the counter and the queue under every failure; and all that is what the step system's run of it leaves |

## Left out

- Booking codes, payment ids, timestamps, prices and other display columns: opaque to every property.
- Titles, addresses, hall sizes, tags and region names of the theater payload, and sale states of the concert payload: display only.
- UUID syntax, group ids, deduplication ids and the shard hash: a ref is a string and its validity a given predicate; SQS deduplication is not used by any proof.
- FIFO order inside a batch and the worker's thread pool: safety is proved without them; deliveries interleave freely.
- TTLs of the queued and result keys: their end is one of the losses the protocol allows at any time.
- The hold meta key: written but never read by the code modelled here.
- Malformed members of the reserved set, unparsable cached JSON and messages without a body or ref: the branches that skip or rebuild them are not modelled.
- Non-ASCII digits and white space, and the length limit, of Python's int(): `SeatKeys` reads ASCII digits, single underscores, a plus sign and ASCII white space.
- Exceptions of the read caches' own GETs and SETs and of the hold counts: they turn a view into an error and store nothing that is not current.
- An exception of the reserved lookup in Redis: it leaves the shows not yet read unanswered, which the lookup's answers already allow.
- Read replica lag and the queries of one build seeing different moments: a build reads one snapshot.
- Account creation and deletion and catalogue edits: users, shows, halls, schedules and the movie list are fixed while bookings and refunds run.
- Deadlocks and lock waits: an attempt that may fail and roll back.
- `Refunds.RunRefund`: the theater and concert endpoints share one generic method, because their statements differ only in table names and in the concert's lookup of a cache key.
- `ConcertReads.SnapshotStore.Fill`: the second read of the key under the lock is modelled in `SnapshotFill`, where other threads can act in between.
- `SnapshotFill.SnapshotTtl`: the two bounds are claimed for a base below 2^44 seconds, where the rounded division truncates to the integer one.
- `SnapshotFill.SingleFlight`: counts loads under the lock; the batch path's query for reserved seats runs before the lock and once per request.
- `BookingStatus.ResultsAreTruthful`: lists the disturbing events for runs and claims nothing after one; for one delivery that runs alone from any reachable state both directions are in `DeliveryTruthfulIff`.
- Deleting a show's snapshot after a concert booking or refund: a delete of `SnapshotFill`.
- Overlapping but different seat lists in the reservation service: its lock key covers one sorted list, so nothing excludes them and no lemma claims it.
- List and detail caches of concerts and movies, accounts, login, payments of the reservation service, the event service, the frontend and deployment files.
