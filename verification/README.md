# The debtors agent, modelled and verified in Dafny

The Swaptacular debtors agent lets currency issuers ("debtors") create money. It
stores debtors and their running transfers in a database, and talks to an
accounting authority through messages that may be lost, repeated and reordered.
This project models the agent's procedures and proves what they guarantee over
whole runs.

`dafny verify dfyconfig.toml` checks everything.

## How the model is built

* `Model.dfy` holds the tables, the three outboxes, and, for every atomic
  procedure, a function from a state to the committed state or the raised error.
* `Records.dfy`, `Procedures.dfy` and `Scanner.dfy` are the procedures in the
  source's own imperative form: they load a row into an object, update its fields
  in place, write it back, and append signals. Each method is proved to do what the
  function of the same name says. A procedure that raises has not written anything
  back, even if it has already changed the loaded object.
* `Histories.dfy` defines a run: any finite sequence of steps from empty tables,
  with any arguments, any messages and any clock readings. `Execution.dfy` proves
  that executing the procedures step by step goes through exactly the states of the
  history, so the theorems about histories are theorems about the procedures.
* The other files prove the theorems: `Issuing`, `Transfers`, `Conservation` and
  `Replies` (the two-phase issuing protocol), `Managing`, `Configuration`, `Rounding`
  and `Orphans` (requests of a debtor and the configuration dialogue), `Mirrors`,
  `Heartbeats` and `Seqnums` (the account mirror), `Counting`,
  `Throttling` and `Updates` (counters, rate limits, optimistic updates),
  `Lifecycle`, `Scans`, `Documents` and `Enumeration` (reservations, the scanner, saved
  documents, pagination).

### Assumptions

* One procedure is one atomic transaction. The three passes of the scanner are
  separate transactions; other steps may come between them.
* A database sequence never hands out the same number twice. The number drawn is a
  parameter of the step, and need not be larger than the earlier ones. (Of document
  IDs it is only assumed that they are not in use.)
* Sequence numbers are signed 32-bit integers; incrementing wraps around, and two of
  them are compared by the half of the circle in which the second lies as seen from
  the first (the library that implements them is not part of this model).
* Timestamps are integers (microseconds), dates are integers (days, UTC). Where a
  procedure reads the clock for different purposes, the readings are separate
  parameters; the columns of a newly reserved debtor share one reading.
* Amounts that the agent sends are whole numbers rounded to double and then to
  single precision, half to even. Amounts that it receives are arbitrary reals: a peer
  may report a decimal that it has read back from such a number. The comparisons with
  `EPS` are those of real numbers.
* The two bits of `status_flags` are two booleans; "scheduled for deletion" is bit 0
  of the integer `config_flags`.
* Extracting an IRI from configuration data is an arbitrary function. The debtor IDs
  that belong to the shard, and to its parent, are arbitrary sets.

### Where the documentation says less than the code

The description of the deletion endpoint (swpt_debtors/routes.py:636-638) warns that
deleting a running transfer does not cancel it. In the code, deletion does prevent any
later commitment (Transfers.DeletionSealsTheOutcome); what it does not do is undo or
report a commitment that has already been sent, which is what a cancel call reveals
(Transfers.CancelSucceedsUnlessCommitted).

## Model

| member | source | states |
|---|---|---|
| Transfers.AtMostOneCommit | swpt_debtors/procedures.py:441-496 | in any run, all commitments of one request ID are the same signal, which answers the only request with that ID: its debtor, its amount, the root creditor; also after deletion or deactivation |
| Transfers.RowsEvolve | swpt_debtors/models.py:272-316 | everything that ever bears a transfer's request ID is a later version of the same row under the same key; a deleted transfer never comes back |
| Transfers.OutcomesAreFrozen | swpt_debtors/procedures.py:747-755 | what was asked for never changes, a transfer ID is written at most once, and after finalization the row never changes |
| Transfers.SuccessMeansCommitted | swpt_debtors/procedures.py:499-532 | a transfer finalized without error has a transfer ID for which the full commitment has been sent |
| Transfers.CancelIsDecisive | swpt_debtors/procedures.py:262-274 | if a cancel call returns normally, no commitment of that request occurs anywhere in the run, before or after |
| Transfers.CancelSucceedsUnlessCommitted | swpt_debtors/procedures.py:262-274 | a transfer of a positive amount can be canceled if and only if no commitment of it has been sent |
| Transfers.InvHolds | swpt_debtors/models.py:299-307 | in every reachable state request IDs are unique and used, every row has its request in the outbox, all commitments of a request are equal, a settled row has its commitment in the outbox, and an error implies finalization |
| Transfers.DeletionSealsTheOutcome | swpt_debtors/procedures.py:277-290 | when a transfer disappears, by deletion, deactivation or cascade, no commitment of it is sent ever again, not even a repeated one: no later position of the outbox commits that request |
| Conservation.MoneyIsConserved | swpt_debtors/procedures.py:475-494 | per currency and at any moment: what was initiated equals what is paid out when every prepared transfer is committed once, plus what is lost to payment (canceled, rejected, or removed in time), plus what is pending; every pending positive amount has a row waiting to be prepared |
| Conservation.LostExactlyWhenNeverCommitted | swpt_debtors/procedures.py:463-494 | a request of a positive amount is lost if and only if no continuation of the run, with any messages, commits it |
| Conservation.CanceledMoneyIsNotPaidOut | swpt_debtors/procedures.py:262-274 | everything canceled up to some moment is lost from then on: what is paid out never exceeds what was initiated less what was canceled |
| Conservation.BalanceHolds | swpt_debtors/procedures.py:336-343 | what is paid out equals the amounts asked for in the committed requests, each counted once |
| Conservation.EverythingAskedForWasInitiated | swpt_debtors/procedures.py:328-343 | the requests in the outbox add up to the amounts of the initiation calls that returned normally |
| Replies.AnswerIs | swpt_debtors/procedures.py:465-496 | a PreparedTransfer is answered with a full commitment exactly when it matches a transfer settled with the same ID, or neither settled nor finalized; otherwise with a dismissal of zero |
| Replies.DismissalIsFinal | swpt_debtors/procedures.py:452-496 | a prepared transfer dismissed under a request ID already given out is always dismissed afterwards, and never committed |
| Replies.DismissalIsFinalExactlyForKnownRequests | swpt_debtors/procedures.py:463-496 | a well-formed message for an active debtor that would be dismissed now can still be committed later if and only if its request ID has not been given out yet |
| Replies.ReplaysGetTheSameAnswer | swpt_debtors/procedures.py:463-496 | while the transfer exists, every replay of a message gets the answer that the message got |
| Replies.DismissedOnlyAfterDeletion | swpt_debtors/procedures.py:277-290 | a committed message is dismissed later only when the transfer has been deleted |
| Replies.FirstReportDecides | swpt_debtors/procedures.py:511-532 | the first FinalizedTransfer about a committed transfer finalizes it: success if and only if executed in full, the reported error if nothing was executed, an unexpected error otherwise |
| Issuing.InitiationSucceedsExactly | swpt_debtors/procedures.py:293-326 | a transfer is initiated if and only if its UUID is new, the debtor is active, its meter admits one more action, and it has fewer rows than the limit; a repetition with equal data, one with other data, and an unknown debtor are told apart |
| Issuing.InitiationEffect | swpt_debtors/procedures.py:328-343 | an initiation adds one open row with the requested data and the drawn ID, counts it, charges one action and asks for the preparation; nothing else changes |
| Issuing.TransferWasMade | swpt_debtors/procedures.py:328-334 | every transfer was made, under its key, by an earlier successful request with exactly its data and its request ID |
| Issuing.RequestIdsAreDrawnOnce | swpt_debtors/models.py:291-293 | no two successful initiations in a run have the same request ID |
| Issuing.AnswersCarryTheRequest | swpt_debtors/procedures.py:452-496 | every PreparedTransfer is answered by one signal with all five of its IDs; if it pays, the amount, the note and its format are those of the earlier request that drew the ID, whose recipient is the reported one and whose amount is covered by the locked one; if it does not pay, it is empty, unless the request was for nothing |
| Issuing.PreparationEffect | swpt_debtors/procedures.py:465-496 | a fitting message settles an open row and changes nothing else in it; the answer pays if and only if the message fits and the row is settled with its transfer ID |
| Issuing.UnknownPreparation | swpt_debtors/procedures.py:463-496 | a message about no existing transfer is answered by an empty signal and changes no row |
| Issuing.RejectionEffect | swpt_debtors/procedures.py:423-438 | a rejection finalizes the unfinalized transfer that it names: with the reported error and locked amount if it is an error of the debtor's root account, with an unexpected error otherwise; a finalized row, every other row, and everything when it names none, stay the same |
| Issuing.ReportEffect | swpt_debtors/procedures.py:511-532 | a report finalizes the transfer that it names only if that is settled with the reported transfer ID and not finalized: without error, with the reported error, or with an unexpected one; otherwise nothing changes |
| Issuing.CancellationEffect | swpt_debtors/procedures.py:262-274 | a cancel call raises exactly for a missing or settled transfer, with different errors; otherwise it finalizes an unfinalized row as canceled and changes nothing else |
| Issuing.DeletionEffect | swpt_debtors/procedures.py:277-290 | a deletion raises exactly when there is no such transfer; otherwise the row is gone, its debtor's count is one less, and nothing else changes |
| Issuing.DeletionUndoesInitiation | swpt_debtors/procedures.py:277-345 | deleting a transfer right after its initiation restores everything but the charged action, the used ID and the sent request |
| Managing.ReservationEffect | swpt_debtors/procedures.py:118-127 | a debtor ID can be reserved exactly when it is not taken; the new record has the column defaults, and no transfers |
| Managing.ActivationEffect | swpt_debtors/procedures.py:130-145 | activation takes effect exactly once, for the text of the record's own reservation ID; it announces the record with the next stamp; any other text raises according to whether the debtor is activated |
| Managing.FirstSignal | swpt_debtors/models.py:164-225 | the first signal of every record has number 1, empty data, no flags and, up to rounding, the amount 2^63 |
| Managing.DeactivationEffect | swpt_debtors/procedures.py:148-154 | deactivation always returns; an active debtor loses exactly its transfers, asks for the deletion of its account, and announces that with the next stamp; any other debtor is left alone |
| Managing.RestrictionEffect | swpt_debtors/procedures.py:157-166 | every active debtor can be given every minimum balance, which is announced with the next stamp; for others the call raises |
| Managing.UpdateSucceedsExactly | swpt_debtors/procedures.py:202-229 | an update of an active debtor that its meter admits succeeds if and only if it is the next one, or repeats the last ID with the same data; otherwise it conflicts |
| Managing.UpdateEffect | swpt_debtors/procedures.py:212-229 | a successful update is charged one action; a repetition does nothing else, and the next update stores ID and data and announces them with the next stamp |
| Managing.NextUpdateIsAnnounced | swpt_debtors/procedures.py:226-229 | the next update of an active debtor within its limit always takes effect and sends exactly one signal of its own, with the new data |
| Counting.CachedCountIsReal | swpt_debtors/procedures.py:277-290 | in every reachable state the cached count is the number of the debtor's transfers, and only active debtors have any |
| Counting.NeverTooManyTransfers | swpt_debtors/procedures.py:321-326 | neither the count nor the number of transfers exceeds the largest limit used |
| Counting.DeactivationKeepsInv | swpt_debtors/procedures.py:739-744 | deactivation deletes exactly the debtor's transfers and keeps every count exact |
| Counting.RemovalKeepsInv | swpt_debtors/models.py:295-298 | cascade deletion keeps every count exact |
| Configuration.OutboxAgreesWithRecord | swpt_debtors/procedures.py:722-736 | at any moment of any run, the latest signal from an activated debtor's own record carries exactly its current data, flags, rounded negated minimum balance and stamp |
| Configuration.VersionsFormChain | swpt_debtors/procedures.py:722-725 | the signals that an activated record has emitted since it was made form a chain: timestamps do not go back, sequence numbers advance one by one |
| Configuration.SignalsFollowRequests | swpt_debtors/procedures.py:130-166 | each first activation, deactivation, restriction and applied update emits exactly one signal with what was asked for; nothing else emits any |
| Configuration.StampsAdvance | swpt_debtors/procedures.py:722-725 | along the chain timestamps never go back, and the n-th successor's sequence number is n increments further, with wrap-around |
| Configuration.StampsAreDistinctExactlyWhenSpread | swpt_debtors/procedures.py:722-725 | the stamps are pairwise distinct if and only if no more than 2^32 consecutive signals share a timestamp, whatever the clock does |
| Configuration.StaleRejectionIsIgnored | swpt_debtors/procedures.py:363-383 | a rejection with the stamp of a version that a later one of the same record has superseded changes nothing |
| Configuration.StaleUpdateAcknowledgesNothing | swpt_debtors/procedures.py:584-605 | an update echoing a superseded version of the same record cannot make the configuration effectual, clear the error or change the IRI |
| Configuration.LatestConfigIsAcknowledged | swpt_debtors/procedures.py:584-605 | any newer unexpired update makes the configuration effectual, clears the error and sets the IRI if and only if it echoes the latest signal with an amount between m/1.00001 and m/0.99999; every reading of the sent amount with six significant digits is |
| Configuration.LatestConfigIsRejected | swpt_debtors/procedures.py:348-383 | any rejection is recorded if and only if it rejects the latest signal, with an amount in that interval, and no error is recorded yet; it never changes anything else |
| Configuration.IriComesFromSentConfig | swpt_debtors/procedures.py:602-605 | at any moment of any run, a debtor's IRI is the one in the data of some signal that this debtor sent |
| Rounding.RelativeError | swpt_debtors/models.py:372 | rounding to p bits changes a number by at most one part in 2^p |
| Rounding.RoundsHalfToEven | swpt_debtors/models.py:372 | rounding yields the nearest multiple of the spacing, and the even one of two equally near ones |
| Rounding.SpacingIsLeast | swpt_debtors/models.py:372 | the spacing is the smallest power of two that leaves no more than the available binary digits |
| Rounding.SentAmountsAreSingle | swpt_debtors/models.py:372 | a sent amount has at most 24 significant bits, and is exact if that is enough |
| Rounding.RoundedTwice | swpt_debtors/procedures.py:734 | amounts are rounded to double and then to single precision, which differs from rounding once: a concrete amount shows it |
| Rounding.EchoIsRecognized | swpt_debtors/procedures.py:589-590 | for every minimum balance, the rounded amount that was sent passes the EPS test when echoed, also after being written with six significant digits |
| Rounding.RecognizedMeansClose | swpt_debtors/procedures.py:375-378 | an amount passes the EPS test if and only if it lies between m/1.00001 and m/0.99999 |
| Rounding.OnlyDiscardsAreHuge | swpt_debtors/procedures.py:795-800 | a discard signal passes for discarded after rounding and rewriting; no amount of a 64-bit minimum balance does |
| Orphans.OneDiscardPerUndiscardedReport | swpt_debtors/procedures.py:561-565 | while an account has no active debtor, exactly one signal is sent for every unexpired update that does not look discarded, and none otherwise |
| Orphans.DiscardExchangeStops | swpt_debtors/procedures.py:792-814 | while an account has no active debtor, nothing is sent if and only if every unexpired report shows the deletion flag and an amount of at least 0.99999 times the discard amount |
| Orphans.AppliedDiscardIsTheLast | swpt_debtors/procedures.py:792-814 | once the peer reports that it has applied a discard signal, in any reading of its amount, nothing more is sent to it |
| Orphans.DiscardIsSent | swpt_debtors/procedures.py:792-814 | a report that does not look discarded is answered by one discard: stamped by the clock, version 0, empty data, deletion flag, and 10^30 up to rounding; nothing else changes |
| Orphans.DeletionIsNotDiscard | swpt_debtors/procedures.py:795-800 | a peer that has applied only a deactivated debtor's deletion signal is still sent a discard |
| Mirrors.ComparisonIsChronological | swpt_debtors/procedures.py:570-581 | inside its windows the lexicographic comparison with wrapping numbers is a linear order on moments |
| Mirrors.MirrorIsLatest | swpt_debtors/procedures.py:570-601 | after any deliveries, mixed with any other steps, the mirror is the reflection of the latest update, or what it was if none is newer |
| Mirrors.MirrorsConverge | swpt_debtors/procedures.py:570-601 | two runs that deliver the same set of consistent updates, in any orders and with any repetitions, end with the same mirror |
| Mirrors.PurgedAccountStaysForgotten | swpt_debtors/procedures.py:386-410 | a purge of the mirrored or a later generation empties the mirror but keeps its moment, and updates that were not news before the purge do not revive the account |
| Mirrors.PurgeEffect | swpt_debtors/procedures.py:386-410 | a purge empties the mirror if and only if an account of its own or an earlier generation is mirrored; nothing else changes |
| Mirrors.DeliveryEffect | swpt_debtors/procedures.py:554-605 | an update older than its ttl in seconds, or not of a root account, changes nothing; an unexpired one of an active debtor changes only its heartbeat and, when it is news, the mirror and what depends on the acknowledgement |
| Heartbeats.DeliveryMovesHeartbeat | swpt_debtors/procedures.py:567-568 | an unexpired update whose timestamp is later than the heartbeat sets it to the earlier of that timestamp and the clock, any other leaves it; it goes back if and only if the clock is behind it |
| Heartbeats.OtherStepsKeepHeartbeat | swpt_debtors/procedures.py:567-568 | no other step moves the heartbeat of a record |
| Heartbeats.HeartbeatHasSource | swpt_debtors/procedures.py:567-568 | every heartbeat is the clock reading of the reservation, or the earlier of timestamp and clock reading of an update delivered since |
| Throttling.RateIsLimited | swpt_debtors/procedures.py:658-704 | counted from any moment before the record was made, and with dates that do not go back, at most (n+1)·limit accepted actions in any 31·n days, and at most (n+1)·limit accepted saves in any 366·n days |
| Throttling.BoundIsReached | swpt_debtors/procedures.py:658-704 | for both meters, every positive limit and every number n of periods there is a run with (n+1)·limit accepted requests in n periods: the bound is tight |
| Throttling.ActionsAreAdmitted | swpt_debtors/procedures.py:658-682 | an action is admitted if and only if a month has passed since the reset and the limit is positive, or the count is below the limit; an admitted one changes only the count and the reset date |
| Throttling.SavesAreAdmitted | swpt_debtors/procedures.py:685-704 | the same for saved documents and years |
| Updates.LatestIdCountsChanges | swpt_debtors/procedures.py:202-229 | the latest update ID minus one is the number of changes applied to the debtor since its record was made |
| Updates.SameIdMeansSameData | swpt_debtors/procedures.py:758-789 | accepted requests with the same update ID carry the same data |
| Updates.ReplayOnlyConsumesAnAction | swpt_debtors/procedures.py:217-224 | replaying the last accepted request changes no configuration, emits no signal, consumes one action, and fails only by throttling |
| Lifecycle.StatusOnlyAdvances | swpt_debtors/models.py:257-269 | under one reservation the status moves only from reserved to activated to deactivated |
| Lifecycle.InvHolds | swpt_debtors/models.py:231-247 | every reachable row meets the CHECK constraints (two of them by the types of the fields); reservation IDs are unique and used |
| Lifecycle.ActivationNeedsItsReservation | swpt_debtors/procedures.py:130-145 | after a reservation, activation with its ID succeeds at any later time if and only if the record has been there all along |
| Basics.DecimalDenotes | swpt_debtors/procedures.py:136 | the text of a reservation ID denotes it, in decimal digits without a leading zero |
| Lifecycle.ActivatedDebtorsPersist | swpt_debtors/table_scanners.py:81-109 | the scanner never collects an activated debtor, however stale its snapshot |
| Scans.InactivityPass | swpt_debtors/table_scanners.py:73-109 | for any snapshot and locks exactly the unlocked debtors that were unactivated and past the cutoff when scanned, and still are, are deleted, and nothing else changes |
| Scans.FreshInactivityPass | swpt_debtors/table_scanners.py:73-109 | with a fresh scan and no locks, exactly the debtors that are not abandoned are left |
| Scans.ConfigurationPass | swpt_debtors/table_scanners.py:111-182 | for any snapshot and locks the error is set exactly on the unlocked rows that were in trouble when scanned, and still are; nothing else changes |
| Scans.FreshConfigurationPass | swpt_debtors/table_scanners.py:111-182 | with a fresh scan and no locks, no active debtor is left in trouble without an error |
| Scans.ParentShardPass | swpt_debtors/table_scanners.py:184-212 | exactly the scanned and unlocked debtors that are valid for the parent shard only are deleted, with their transfers and documents; nothing else changes |
| Documents.SavedDocumentsStay | swpt_debtors/models.py:327-348 | a saved document is available exactly as it was saved in every later state while the debtor's shard is kept, also after deactivation |
| Documents.SaveEffect | swpt_debtors/procedures.py:608-631 | an active debtor can save a document if and only if its meter admits that; the document is added as it is, one save is charged, and nothing else changes |
| Documents.DocumentsComeFromSaves | swpt_debtors/procedures.py:608-638 | every available document was saved under its ID by an accepted request of its debtor, whose record has been there ever since |
| Enumeration.FirstIds | swpt_debtors/procedures.py:96-107 | the selected IDs are increasing, no more than the limit, and no smaller ID is left out |
| Enumeration.GetDebtorIds | swpt_debtors/procedures.py:91-115 | a page lists exactly the active IDs from its start up to the next page's start, or all the rest |
| Enumeration.ListingIncreases | swpt_debtors/routes.py:250-273 | whatever changes between pages, the listed IDs strictly increase and are valid |
| Enumeration.ListingIsComplete | swpt_debtors/routes.py:250-273 | a finished listing contains every valid debtor that was active at every request |
| Enumeration.ListedWasActive | swpt_debtors/routes.py:250-273 | every listed debtor was active at some request |
| Enumeration.WalkTerminates | swpt_debtors/routes.py:259-273 | page starts strictly increase, which bounds the number of pages |
| Enumeration.StaticListingIsExact | swpt_debtors/routes.py:250-273 | on an unchanging table the pages together are the sorted list of valid active IDs |
| Enumeration.ListingDuringRun | swpt_debtors/routes.py:204-223 | during any run, the listing from the smallest 64-bit ID ends, and contains every valid debtor that stays active exactly once |
| Procedures.Session.GetDebtorIds | swpt_debtors/procedures.py:91-115 | the page with its next start, as above |
| Procedures.Session.ReserveDebtor | swpt_debtors/procedures.py:118-127 | inserts a row with the column defaults, or raises |
| Procedures.Session.ActivateDebtor | swpt_debtors/procedures.py:130-145 | with the record's own reservation ID activates it and announces its configuration, once; otherwise raises, with one error for an activated debtor and another for the rest |
| Procedures.Session.DeactivateDebtor | swpt_debtors/procedures.py:148-154 | an active debtor gets the deactivated status and date, the deletion flag and empty data, loses its transfers, and one signal announces it; any other debtor is left alone |
| Procedures.Session.RestrictDebtor | swpt_debtors/procedures.py:157-166 | sets the minimum balance of an active debtor and announces it; raises for any other debtor |
| Procedures.Session.InsertConfigureAccountSignal | swpt_debtors/procedures.py:722-736 | stamps the loaded row and appends the signal that announces it |
| Procedures.Session.ThrottleDebtorActions | swpt_debtors/procedures.py:658-682 | counts one action on the loaded row, or raises |
| Procedures.Session.UpdateDebtorConfig | swpt_debtors/procedures.py:202-229 | counts one action; repeating the last update changes nothing else, the next update ID stores and announces the data, any other ID raises and undoes the counting |
| Procedures.Session.ProcessRejectedConfig | swpt_debtors/procedures.py:348-383 | records the error exactly when stamp, flags, data and amount are the current ones and no error is recorded |
| Procedures.Session.ProcessAccountPurge | swpt_debtors/procedures.py:386-410 | empties the mirror exactly when a mirrored root account of the purged or an earlier generation is there |
| Procedures.Session.ProcessAccountUpdate | swpt_debtors/procedures.py:535-605 | ignores other accounts and expired updates, answers for a debtor that is not active as an orphan, otherwise sets the heartbeat as described above and mirrors a newer update; the assertion about creation dates never fails |
| Procedures.Session.DiscardOrphanedAccount | swpt_debtors/procedures.py:792-814 | appends a discard signal unless the account looks discarded |
| Procedures.Session.InitiateRunningTransfer | swpt_debtors/procedures.py:293-345 | for a new UUID within the limits stores the row, counts it and asks for its preparation; a used UUID raises, with equal and different data told apart; raising after the counters have been bumped writes nothing |
| Procedures.Session.CancelRunningTransfer | swpt_debtors/procedures.py:262-274 | finalizes an unsettled transfer as canceled, unless it is finalized already; raises for a settled or missing one |
| Procedures.Session.DeleteRunningTransfer | swpt_debtors/procedures.py:277-290 | deletes the row and lowers its debtor's count by one; raises if there is none |
| Procedures.Session.FindRunningTransfer | swpt_debtors/procedures.py:707-719 | finds the transfer with the request ID, if there is one |
| Procedures.Session.ProcessPreparedTransfer | swpt_debtors/procedures.py:441-496 | settles a matching open transfer; answers with its full commitment if the transfer IDs agree, and with a dismissal in every other case |
| Procedures.Session.ProcessRejectedTransfer | swpt_debtors/procedures.py:413-438 | finalizes an unfinalized transfer, with the reported code and locked amount if an error of the root account of its debtor is reported, with an unexpected error otherwise |
| Procedures.Session.ProcessFinalizedTransfer | swpt_debtors/procedures.py:499-532 | finalizes an unfinalized transfer settled with the reported ID: without error if executed in full, with the reported error if nothing was executed, with an unexpected error otherwise; ignores other messages |
| Procedures.Session.SaveDocument | swpt_debtors/procedures.py:608-631 | counts one save and inserts exactly the given document under the drawn ID; raises and inserts nothing for a debtor that is not active or has reached the limit |
| Procedures.Session.ThrottleDocumentSaves | swpt_debtors/procedures.py:685-704 | counts one saved document on the loaded row, or raises |
| Records.Debtor.Deactivate | swpt_debtors/models.py:260-269 | the loaded row becomes a deactivated one |
| Records.RunningTransfer.Finalize | swpt_debtors/procedures.py:747-755 | finalizes the loaded row unless it is finalized already |
| Scanner.DebtorScanner.DeleteDebtorsNotActivatedForLongTime | swpt_debtors/table_scanners.py:73-109 | deletes exactly the chosen, unlocked and still inactive debtors |
| Scanner.DebtorScanner.SetConfigErrorsIfNecessary | swpt_debtors/table_scanners.py:111-182 | marks exactly the chosen, unlocked rows that still have the problem |
| Scanner.DebtorScanner.DeleteParentShardDebtors | swpt_debtors/table_scanners.py:184-212 | deletes exactly the scanned, unlocked debtors that belong to the parent shard and not to this one |
| Scanner.DebtorScanner.DeleteAll | swpt_debtors/table_scanners.py:106-109 | deleting one by one, with cascades, removes all of them with what they own, and nothing else |
| Execution.Execute | swpt_debtors/procedures.py:28 | one procedure is one step of a history |
| Execution.ExecuteAll | swpt_debtors/procedures.py:28 | running the procedures and the scanner step by step goes through exactly the states of the history |

## Left out

- Mirrors.MirrorsConverge: does not cover `config_error`, `debtor_info_iri` and the heartbeat timestamp, because in the code these depend on the order of delivery.
- Lifecycle.ActivatedDebtorsPersist: excludes the removal of the debtor with its parent shard, which deletes activated debtors on purpose; so do Updates.SameIdMeansSameData and Documents.SavedDocumentsStay, and what is counted from the beginning of a record ends with it.
- Configuration.SignalsFollowRequests: an outbox admits two signals of one debtor with equal timestamp and sequence number, which the primary key of the signal table does not while the first has not been flushed; there, the second transaction raises (for example, when a debtor ID is reserved and activated anew within a microsecond).
- Orphans.OneDiscardPerUndiscardedReport: likewise; two discards for one debtor within one microsecond collide while the first has not been flushed, and processing the second report raises.
- Rounding.EchoIsRecognized: compares real numbers with the decimal value of `EPS`; the rounding of double-precision operations inside the comparison is not modelled.
- Messaging, signal flushing, JSON, HTTP, schemas, permissions and command-line tools: an outbox is an append-only sequence, and the ranges that schemas enforce are types of the model.
- The values that procedures return, and the read queries except `get_debtor_ids`: they would only add easy members.
- The retry loop of the random reservation endpoint, and the scanner's discarding of query plans.
- `_get_debtor_info_iri_from_config_data`, the sharding realm, and account URIs: arbitrary functions, or not part of this model.
- Overflow of counter columns other than sequence numbers: the database raises an error, and the transaction is rolled back.
