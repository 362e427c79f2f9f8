# Train reservation ledger

A Dafny model of the seat and waiting-list ledger of `TrainReservationSystem`, a console train
reservation program backed by five SQL tables:

- `train`: seats on sale and fare per train;
- `wait`: a train's waiting count, with no row when the count is zero;
- `pnr`: booking references, holding train, user, status and an optional `start-end` waiting range;
- `passenger`: one row per passenger, holding PNR, details and a seat status;
- `upi`: account balances.

The class `Reservation.TrainReservationSystem` keeps one field per table. Its methods cover:

- allocating a PNR;
- taking a payment;
- booking in one of three ways: full confirm, full waitlist, or a split between seats and waiting list;
- cancelling with a refund;
- promoting waiting passengers into freed seats, first come first served;
- renumbering a train's waiting ranges.

Each operation either commits all its rows or leaves the tables unchanged. The one exception is
payment, which the source commits before the booking transaction starts.

The loops of the source stay loops. Each is tied to a function over the queue it walks:

- `Promotion.PromoteScan` for the promotion loop;
- `Renumbering.RenumberScan` for the renumbering loop.

The guarantees are proved about those functions:

- seat conservation;
- promotion order;
- the outcome for each PNR;
- contiguous renumbered ranges.

Module layout:

- `Tables` holds the rows and the row-counting queries (`Tally` is `SELECT COUNT(*)`).
- `Promotion` holds the promotion scan.
- `Renumbering` holds the renumbering pass.
- `Reservation` holds the class.

The model keeps the program's own behaviour, including these quirks:

- A full confirm gives its passengers the status "Booked", not "Confirmed". Cancelling such a PNR
  therefore counts no confirmed seat, and its seats never go back on sale (`BookedFreesNothing`).
- A split booking's PNR is "Partially Booked" with no range. Promotion only scans "Waiting List"
  PNRs, so the queued passengers of a split booking are never promoted.
- A partly promoted PNR gets a range one ordinal wider than its passengers still waiting.
- Renumbering counts all of a PNR's passengers, whatever their status.
- Cancelling an already cancelled PNR is accepted. Its passenger rows are gone, so it refunds 0
  and frees 0.

## Model

| member | source | states |
|---|---|---|
| Reservation.TrainReservationSystem.GenerateRandomPnr | project_1.java:17-39 | the result lies in 1000..999999999 and is not an existing PNR; it is the first of the five candidates that is free; there is no result exactly when all five candidates are taken |
| Reservation.TrainReservationSystem.Pay | project_1.java:42-75 | the payment succeeds iff the account exists and its balance covers the amount; on success exactly that amount is deducted, otherwise no balance changes |
| Reservation.Classify | project_1.java:127-141 | every requested seat is either given or queued; seats given never exceed those on sale; a passenger is queued only when every seat on sale is taken; nothing is queued iff the request fits; the three branches are told apart as in the source |
| Reservation.Committed | project_1.java:127-334 | the tables after `bookTicket` commits each of its three outcomes; `BookTicket` and `Settle` ensure it, and `Accounted`, `AddedTally` and `BookedTally` carry its seat and waiting bookkeeping |
| Reservation.TrainReservationSystem.BookSeats | project_1.java:339-390 | when the train exists, its seats on sale drop by the seats booked, the PNR is added as "Booked" with no range, and one "Booked" row per seat is added; when no train row is updated, nothing changes |
| Reservation.TrainReservationSystem.InsertPassengers | project_1.java:364-381 | the passenger table grows by exactly one row per details record, in order, with the PNR and status given |
| Reservation.TrainReservationSystem.CommitWaitlist | project_1.java:145-204 | the waiting count becomes the previous count plus the request, and the row is created when absent; the PNR is "Waiting List" with range (prev+1)-(prev+requested), of width requested; one "Waiting List" row per passenger is added; seats on sale are untouched |
| Reservation.TrainReservationSystem.CommitSplit | project_1.java:227-313 | seats on sale become 0; the PNR is "Partially Booked" with no range; it gets as many "Confirmed" rows as there were seats on sale and "Waiting List" rows for the rest, which sum to the request; the waiting count grows by the queued part |
| Reservation.TrainReservationSystem.BookTicket | project_1.java:104-336 | an unknown train, five PNR collisions or a declined payment change nothing. The payment is declined exactly when the account is missing or its balance is below fare × requested. A booking succeeds only when the balance covered that amount, which is then deducted, and exactly one of the three outcomes is committed with its rows and counters (`Committed`). No other train changes. Seats taken off sale equal the Booked and Confirmed rows added, and waiting-count growth equals the Waiting List rows added |
| Reservation.TrainReservationSystem.Settle | project_1.java:127-334 | once paid, exactly the outcome the classification chooses is committed: the full state of the tables afterwards is that outcome's, and seats taken off sale and waiting-count growth match the rows added |
| Reservation.TrainReservationSystem.AddToWaitingList | project_1.java:431-461 | the passenger table grows by one "Waiting List" row per waiting seat and nothing else changes |
| Reservation.TrainReservationSystem.UpdateWaitingList | project_1.java:393-428 | the waiting count grows by the given number, and the row is created when absent; the recorded next number is one past the largest range start among the train's "Waiting List" PNRs, or 1 when none has a range |
| Reservation.TrainReservationSystem.WaitingQueue | project_1.java:671-677 | the result holds each of the train's "Waiting List" PNRs exactly once, in ascending order of range start |
| Reservation.TrainReservationSystem.InsertByStart | project_1.java:671-677 | inserting one more queued PNR keeps the queue distinct, queued and ordered, and adds only that PNR |
| Reservation.TrainReservationSystem.ProcessRefund | project_1.java:804-854 | the refund is the PNR's passenger rows times the train's fare, credited to the account; a missing train or an unknown account is an error that leaves every balance unchanged |
| Reservation.TrainReservationSystem.Cancel | project_1.java:570-639 | an unknown PNR, a refusal or a failed refund change nothing. Otherwise the account is credited passengers × fare, the PNR's rows are deleted, and it becomes Cancelled with no range. The freed seats are its Confirmed rows; with none, seats and waiting counts stay as they were, otherwise promotion runs on the freed seats |
| Reservation.TrainReservationSystem.Withdraw | project_1.java:607-628 | an unknown refund account rolls back every table and balance; otherwise the refund is credited, the rows are deleted, the PNR is Cancelled, and promotion runs exactly when Confirmed rows were deleted |
| Reservation.TrainReservationSystem.DeleteAndMark | project_1.java:611-621 | the PNR's passenger rows are gone and the PNR is Cancelled with no range; nothing else in the tables changes |
| Reservation.Withdrawn | project_1.java:607-628 | the tables and balances after a consented cancellation: refund of rows × fare, rows deleted, PNR Cancelled with no range, promotion exactly when Confirmed rows existed; `Cancel` and `Withdraw` ensure it, and `RemovePnrTally` and `PromotedKeepsOthers` carry its counts |
| Reservation.TrainReservationSystem.Promote | project_1.java:641-747 | with no waiting count, the freed seats go back on sale; otherwise the tables become the result of the promotion scan over the queue, with the waiting count and seats on sale settled by the number promoted |
| Reservation.TrainReservationSystem.PromoteQueue | project_1.java:679-716 | the loop leaves the pnr and passenger tables and the counters exactly as the promotion scan over the queue does |
| Reservation.TrainReservationSystem.PromotePnr | project_1.java:683-715 | one pass of the promotion loop: the PNR's tables and counters become those of one scan step |
| Reservation.Promoted | project_1.java:641-747 | the tables after `promoteWaitingListPassengers`: freed seats back on sale with no waiting count, otherwise the scan over the start-ordered queue with the waiting count and seats settled; `Promote` ensures it, and `PromotedSettles` and `PromotedKeepsOthers` prove its properties |
| Reservation.PromotedSettles | project_1.java:720-741 | the number promoted lies between 0 and the seats freed; seats on sale end at before + freed − promoted; waiting rows and the waiting count fall by the number promoted, and the wait row stays exactly when some waiting count is left, otherwise it is deleted; no other train changes |
| Reservation.PromotedKeepsOthers | project_1.java:671-677 | a PNR that is not waiting on that train keeps its row and its number of passengers through promotion |
| Reservation.AddedTally | project_1.java:248-310 | adding Confirmed rows then Waiting List rows under one PNR raises exactly those two counts and that PNR's row count |
| Reservation.BookedTally | project_1.java:364-381 | adding "Booked" rows under one PNR raises exactly the Booked count and that PNR's row count |
| Reservation.BookedFreesNothing | project_1.java:592-598 | a fresh PNR booked by a full confirm has no Confirmed row, so its cancellation frees no seat |
| Reservation.InsertSorted | project_1.java:671-677 | placing a PNR after those that start no later keeps the queue ordered by start |
| Reservation.InsertKeeps | project_1.java:671-677 | inserting a new queued PNR keeps the queue's PNRs distinct and queued |
| Reservation.TrainReservationSystem.UpdateWaitingListNumbers | project_1.java:749-778 | the train's "Waiting List" PNRs are taken in start order and the pnr table becomes the renumbering pass from 1 over them |
| Tables.Tally | project_1.java:592-598 | a count never exceeds the number of rows |
| Tables.TallyAppend | project_1.java:183-201 | counting over two tables of rows is the sum of the counts |
| Tables.TallyStatusWithin | project_1.java:592-598 | a PNR has no more rows in one status than it has rows |
| Tables.WaitCount | project_1.java:148-170 | a train's waiting count, 0 when it has no wait row; `CommitWaitlist`, `CommitSplit`, `UpdateWaitingList` and `PromotedSettles` state how it changes |
| Tables.RowsTally | project_1.java:183-201 | inserted rows raise the count of their PNR and status by their number and leave every other count alone |
| Tables.RemovePnr | project_1.java:611-615 | the delete keeps only rows of other PNRs, all taken from the table |
| Tables.RemovePnrTally | project_1.java:611-615 | the delete leaves no row of the PNR; it removes exactly that PNR's rows from each status count and keeps every other PNR's counts |
| Tables.ConfirmFirst | project_1.java:694-701 | promotion keeps the number of rows and each row's PNR and details; a row that changes was that PNR's Waiting List row and becomes Confirmed |
| Tables.ConfirmFirstTally | project_1.java:687-701 | promoting k rows of a PNR moves min(k, w) of its w waiting rows to Confirmed, both for the PNR and overall |
| Tables.ConfirmFirstKeeps | project_1.java:694-701 | promotion keeps every PNR's row count and every count of the other PNRs |
| Promotion.PartialRange | project_1.java:703-710 | the range given to a partly promoted PNR spans w − k + 1 ordinals |
| Promotion.Step | project_1.java:683-715 | one pass keeps the pnr keys and every other PNR's row, keeps train and user, conserves promoted + remaining, and never raises the remaining seats |
| Promotion.PromoteScan | project_1.java:679-716 | the promotion loop over the queue, stopping at the end of the queue or when no seat remains; `ScanBudget`, `ScanOutside`, `ScanTally`, `ScanFifo` and `ScanOutcome` prove its properties |
| Promotion.StartOf | project_1.java:672-674 | the sort key of the waiting queue, a range's start; `WaitingQueue`, `InsertByStart` and `InsertSorted` state the order it gives |
| Promotion.StepServes | project_1.java:689-715 | one pass promotes min(w, remaining) of the PNR's w waiting passengers: a pass that leaves a seat over leaves none of them waiting, and one that leaves some waiting uses up every seat |
| Promotion.StepKeeps | project_1.java:694-701 | one pass for a PNR leaves every count of every other PNR as it was |
| Promotion.ScanBudget | project_1.java:679-716 | over the whole scan, promoted + remaining is conserved and remaining stays between 0 and the seats freed |
| Promotion.ScanOutside | project_1.java:679-716 | a PNR outside the queue keeps its row and all its passenger counts |
| Promotion.ScanTally | project_1.java:679-716 | waiting rows fall and Confirmed rows rise by exactly the number promoted; every PNR keeps its row count |
| Promotion.ScanFifo | project_1.java:671-716 | first come, first served: if a later PNR in the queue gained a Confirmed row, every earlier one has no waiting passenger left |
| Promotion.ScanOutcome | project_1.java:689-715 | a queued PNR ends in one of three ways. It stays waiting with nothing promoted; or it becomes Confirmed with no range and no waiting row; or it becomes Partially Confirmed, which happens only once the seats run out, with a range one wider than its remaining waiting rows. When seats are left over, no queued PNR still waits |
| Renumbering.WidthAppend | project_1.java:757-777 | the rows of two runs of PNRs add up |
| Renumbering.RenumberKeeps | project_1.java:770-774 | the pass rewrites only ranges, and only those of the queued PNRs |
| Renumbering.RenumberScan | project_1.java:757-777 | the renumbering loop from a given ordinal over the queue; `RenumberKeeps`, `RenumberLayout`, `RenumberContiguous` and `RenumberOrdered` prove its properties |
| Renumbering.RenumberLayout | project_1.java:757-777 | the i-th PNR gets the ordinals just after the rows of the PNRs before it |
| Renumbering.RenumberContiguous | project_1.java:749-778 | for every PNR of the queue, including the only or the last one: the first range starts at 1, each range is as wide as its PNR's passenger rows, and each starts right after the one before |
| Renumbering.RenumberOrdered | project_1.java:757-777 | a range ends before the range of any later PNR in the queue starts, so no two ranges overlap |

## Left out

- Console I/O: the prompts and printing, and reading the train choice, passenger details, UPI ids and the Y/N answer. These become method parameters; any answer other than "Y" (in any case) is `consent == false`.
- JDBC: connections, prepared statements and auto-commit. Each operation commits all its rows or leaves the tables unchanged.
- `java.util.Random`: the five draws of `generateRandomPNR` are a caller-supplied sequence.
- Route search in `bookTicket`: listing trains by start and end city is read-only and is not part of this model. The operation starts from the chosen train number.
- `signUp`, `verifyUser`, `checkPNRStatus`, `displayTicketDetails` and `main`: interactive wrappers over regexes, lookups and printing. They are not part of this model.
- Concurrency: the check-then-act races between callers are not modelled.
- MySQL casts: the text range `start-end` is a pair of integers, and `CAST(SUBSTRING_INDEX(...))` becomes its start. A PNR with no range sorts as start 0 in the queue and is ignored by `MAX` in `updateWaitingList`. MySQL's `ORDER BY` puts such a NULL key first, ahead of every start, while key 0 puts it after any negative start; the two orders agree for the starts of 1 and above that the program writes.
- Sort ties: PNRs with equal starts come out of the queue in an unspecified order. The model picks one, and every lemma holds for any queue with the same order by start.
- Tables.ConfirmFirst: promotes the first waiting rows in table order rather than in order of passenger name (`ORDER BY name LIMIT`). Counts per PNR and per status are exact; which passenger of a PNR is promoted is not modelled.
- Reservation.TrainReservationSystem.BookTicket: Java's 32-bit `int` is not modelled, so `fare * requested` and the balances do not wrap around.
- Reservation.TrainReservationSystem.ProcessRefund: the refund `passengerCount * amountPerTicket` (project_1.java:830) and the new balance (841) are unbounded integers here and do not wrap around as Java's 32-bit `int` would.
- Reservation.TrainReservationSystem.Promote: the seat sums written back (project_1.java:660, 739) and the waiting counts are unbounded integers here and do not wrap around as Java's 32-bit `int` would.
- Reservation.TrainReservationSystem.BookTicket: a declined payment is modelled as leaving the tables unchanged. The state after an SQL error raised once `pay` has committed is not modelled, because none can occur on the in-memory tables.
- Reservation.TrainReservationSystem.BookSeats: specialised to the one call the program makes, with status "Booked" and no range.
- Reservation.TrainReservationSystem.Promote: requires the train to exist and at least one freed seat, which is how `cancelTicket` calls it. Its `SELECT available_seats` on a missing train is not modelled.
- Reservation.TrainReservationSystem.BookTicket: five PNR collisions make `generateRandomPNR` throw outside the handlers of `bookTicket`, so the exception reaches `main`, which ends the session. The model returns `Failed(PnrExhausted)` with the tables unchanged and does not model program termination.
- Reservation.TrainReservationSystem.Cancel: an unknown refund account makes `processRefund` throw; after the rollback the exception ends the session in `main`. The model returns `RefundFailed` with the tables unchanged and does not model program termination.
- Reservation.TrainReservationSystem.UpdateWaitingListNumbers: nothing in the program calls it, so no operation here calls it either.
