# Verified model of the tx_trade order, reconciliation and recording core

The modules here model the parts of tx_trade whose correctness spans many steps
or many functions, and prove what those parts promise over every input and every
run. `dafny verify dfyconfig.toml` checks the whole project.

* **Live orders** (`LiveContracts`, `LiveStateMachine`, `LiveOrderSafety`,
  `LiveOrderOutcomes`, `LiveOrderRuns`, `LiveOrderEvidence`, `CancelRace`,
  `DynamicCancel`). A desk holds one live order, its applied-event
  ledger and the fills emitted so far, and takes any sequence of local commands,
  dispatch receipts, broker order events and broker fills. Proved: an inductive
  invariant strictly stronger than the order's constructor check, so that no
  reduction of a reachable order raises; when each event, receipt and command
  applies to a good order and what it leaves; progress over whole runs; insensitivity
  to redelivery; conservation of quantity and notional; that only confirmed broker
  evidence changes what an order claims about the broker; confluence of fills
  racing a cancel, and exactly when fills and a dynamic cancel are confluent.
* **Reconciliation** (`ReconciliationContracts`, `Dedupe`,
  `ReconciliationMeaning`, `Reconciliation`, `ReconciliationVerdict`,
  `ReconciliationPositions`, `ReconciliationInvariance`, `ReportProfiles`,
  `ReconciliationOrder`, `ReconciliationRedelivery`). The assessment loops are
  proved against set-valued specifications; the status and every kind of
  discrepancy are said on the raw observations; `may_resume` is characterised
  exactly; the verdict is shown not
  to depend on the order or repetition of the broker's observations, and it is
  stated exactly when the list of discrepancies does.
* **Projection** (`Projection`, `ProjectionSafety`, `ProjectionReasons`,
  `ProjectionTiming`). When a plan is ready, what its orders are, exactly when it
  carries each reason, why committing it closes the gap, and when the commit can
  be assessed against the same evidence.
* **Ingress** (`RecencyWindow`, `IngressQueues`, `IngressHistory`,
  `IngressDecisions`, `IngressWaiting`, `Monitoring`, `Ingress`, `StaQueue`,
  `Recording`, `Processor`, `SessionDamage`). The four-lane bounded scheduler, its
  dedupe cache, its metrics, health and damage tracking, and the fail-stop
  processor, as classes whose methods take the steps of value-level machines about
  whose runs the theorems speak. The log of a run alone decides each later answer:
  who is accepted, merged, dropped or a duplicate, and what a pop takes. A locked
  section is one atomic step, so any interleaving of publishers
  and the popper is a run.
* **Exact arithmetic and text** (`Sums`, `Decimals`, `ExactSum`, `DecimalText`,
  `JournalCodec`, `PaperCosts`). The exact decimal sum, canonical decimal text and
  its reader, the tagged journal codec, cumulative-delta fees and the signed-net
  position ledger.
* **Durable output** (`PaperReplay`, `ResearchState`, `CrashResume`,
  `CrashDecisions`, `DurableOutput`). One-shot materialisation, the durable outbox,
  their equality after any number of crashes, and when the store and each step of
  the replay accept or refuse.

Conventions: identifiers are strings, times are integers, quantities and prices
of the reducers are exact reals, a fingerprint is the payload it digests, and an
exception is a value of a result type.

Where the code does not do for every input what one would expect of it, the
input and the exact condition are stated:

* fills and a DYNAMIC_CANCELLED event end differently, depending on the order of
  delivery, exactly when the order is CREATED, VALIDATED, SUBMITTING or
  SUBMISSION_UNKNOWN and the fills leave something open (`DynamicCancel`);
* `exact_decimal_sum` refuses inputs that are all within its bounds exactly when
  the aligned total without trailing zeros is not (`ExactSum.RefusedExactly`);
* a value whose decimals have more than 28 significant digits, up to 34 of which
  the contracts accept, does not come back from the journal codec
  (`JournalCodec.ComesBackExactly`);
* `_decode_node` accepts a defaulted enum member spelled as bare text, which only
  the re-encoding guard refuses (`JournalCodec.GuardRefusesExactly`);
* the list of discrepancies depends on the order of the broker's observations,
  or on repetitions, exactly when some discrepancy is reported by a payload that
  a reused identity makes usable in one observation and unusable in another, and
  nothing else reports it in any case (`ReconciliationOrder`,
  `ReconciliationRedelivery`; `ReportProfiles.May` and `ReportProfiles.Must` say
  both in terms of the observations);
* a ready projection plan cannot be assessed after its commit exactly when the
  fill or position evidence is older than a projected order (`ProjectionTiming`).

The guard of `project_authoritative_orders` against asking about one client id
twice can never fire (`Projection.AuthenticSubjects`).

## Model

| member | source | states |
|---|---|---|
| LiveOrderSafety.CreatedOrderHoldsInv | tx_trade/orders/live_state_machine.py:92-105 | a created order is CREATED and unfilled at version one with the intent's quantity and price, and satisfies the inductive invariant |
| LiveOrderSafety.StepIsSafe | tx_trade/orders/live_state_machine.py:108-390 | on an order that satisfies the invariant no operation fails the LiveOrder constructor check, broker and dispatch evidence never raises, and the result keeps the invariant and either is untouched or one version further with nothing settled lost |
| LiveOrderSafety.TransitionIsSound | tx_trade/orders/live_state_machine.py:393-495 | every transition offered for a broker event keeps quantities, limit price, pending command and terminal states consistent, and rejects exactly for a rejection, cancels exactly for a cancellation and fills only by a decrease |
| LiveOrderSafety.MovedOrderKeepsInv | tx_trade/orders/live_state_machine.py:293-319 | an order moved by a sound transition satisfies the invariant and advances by exactly one version |
| LiveOrderSafety.FilledOrderKeepsInv | tx_trade/orders/live_state_machine.py:341-390 | a fill that fits leaves an order that satisfies the invariant and advances by exactly one version |
| LiveOrderSafety.FillStep | tx_trade/orders/live_state_machine.py:322-390 | a fill event either changes nothing at all or fills the order, records the event and emits the fill, and when it does which |
| LiveOrderSafety.ConstructorCheckIsNotInductive | tx_trade/orders/live_contracts.py:417-515 | a concrete order that passes the constructor check and whose reduction nevertheless raises |
| LiveOrderOutcomes.NewRejectedOutcome | tx_trade/orders/live_state_machine.py:420-423 | a fresh confirmed rejection leaves REJECTED, no command and no acceptance, everything else as it was, if and only if the order has not ended, is unfilled and was never accepted; otherwise the desk is unchanged and reconciliation is asked for |
| LiveOrderOutcomes.NewAcceptedOutcome | tx_trade/orders/live_state_machine.py:411-419 | an acceptance of an order that has not ended changes nothing about an accepted one, and makes any other ACCEPTED from the time shown, its command settled |
| LiveOrderOutcomes.CancelPendingOutcome | tx_trade/orders/live_state_machine.py:424-431 | applies if and only if the order is CANCEL_PENDING, and keeps state and command |
| LiveOrderOutcomes.CancelledOutcome | tx_trade/orders/live_state_machine.py:432-447 | cancels every order that has not ended and settles its command; a cancelled one is only recorded, a filled or rejected one contradicts it |
| LiveOrderOutcomes.DynamicCancelledOutcome | tx_trade/orders/live_state_machine.py:432-447 | cancels if and only if the order is ACCEPTED, PARTIALLY_FILLED or CANCEL_PENDING; a cancelled one is only recorded |
| LiveOrderOutcomes.CancelRejectedOutcome | tx_trade/orders/live_state_machine.py:448-454 | reopens the order, by its fills, if and only if a cancel is pending |
| LiveOrderOutcomes.AmendRejectedOutcome | tx_trade/orders/live_state_machine.py:455-461 | reopens the order with total and limit price as they were if and only if an amendment or decrease is pending |
| LiveOrderOutcomes.OutcomeUnknownOutcome | tx_trade/orders/live_state_machine.py:462-471 | applies if and only if a command is pending, keeps it, and leads to SUBMISSION_UNKNOWN for a new order, to RECONCILING otherwise |
| LiveOrderOutcomes.PriceAmendedOutcome | tx_trade/orders/live_state_machine.py:472-494 | takes the price over if and only if it is the pending amendment's, on a limit order |
| LiveOrderOutcomes.QuantityDecreasedOutcome | tx_trade/orders/live_state_machine.py:472-494 | takes the total over if and only if it is the pending decrease's and no less than what is filled, and fills the order when nothing is left |
| LiveOrderOutcomes.PriceAndQuantityOutcome | tx_trade/orders/live_state_machine.py:472-482 | always contradicts the order, since no command asks for both |
| LiveOrderOutcomes.UnconfirmedContradicts | tx_trade/orders/live_state_machine.py:607-625 | a fresh event that is not confirmed for this order's id, account and instrument changes nothing and asks for reconciliation |
| LiveOrderOutcomes.RedeliveredOrderEvent | tx_trade/orders/live_state_machine.py:588-598 | an event under a recorded identity is an exact duplicate if and only if account, instrument, kind, price and quantity are the same, otherwise a conflict |
| LiveOrderOutcomes.RedeliveredFill | tx_trade/orders/live_state_machine.py:580-598 | the same for fills, by account, instrument, side, quantity and price |
| LiveOrderOutcomes.FillOutcome | tx_trade/orders/live_state_machine.py:322-390 | a fresh fill is taken if and only if it is confirmed, on the order's side, fits and the order is not rejected; state, quantities, exact average, command, acceptance, record and emitted fill are then determined, and otherwise nothing changes |
| LiveOrderOutcomes.ForeignReceipt | tx_trade/orders/live_state_machine.py:226-241 | a receipt for anything but the pending command changes nothing and is a conflict |
| LiveOrderOutcomes.FirstReceipt | tx_trade/orders/live_state_machine.py:243-264 | the first receipt of the pending command is recorded: success leaves the order alone, a failure or an unknown outcome keeps the command and sends the order to SUBMISSION_UNKNOWN or RECONCILING, each with its disposition and failure |
| LiveOrderOutcomes.RedeliveredReceipt | tx_trade/orders/live_state_machine.py:588-598 | a further receipt is an exact duplicate if and only if it equals the recorded one |
| LiveOrderOutcomes.AdvanceOutcome | tx_trade/orders/live_state_machine.py:108-151 | validation, submission with its own NEW command and giving up on an unknown submission are granted, and nothing else; a refusal leaves the desk untouched |
| LiveOrderOutcomes.CancelRequestOutcome | tx_trade/orders/live_state_machine.py:154-175 | granted if and only if the order is open without a command and the cancel is its own and in time |
| LiveOrderOutcomes.OperationRequestOutcome | tx_trade/orders/live_state_machine.py:178-215 | an amendment or a decrease is granted if and only if the order is open without a command, it is the order's own and in time, and a decrease names the current total |
| LiveOrderRuns.RunsOnlyProgress | tx_trade/orders/live_state_machine.py:498-531 | over every run version and updated_at never fall, total never grows, filled never shrinks, accepted_at is written once, FILLED and REJECTED are absorbing and CANCELLED leaves only to FILLED |
| LiveOrderRuns.RecordedForever | tx_trade/orders/live_state_machine.py:56-74 | what the ledger holds it holds after every continuation |
| LiveOrderRuns.RedeliveryChangesNothing | tx_trade/orders/live_state_machine.py:588-604 | an event or receipt whose identity is recorded, equal or altered, leaves order, ledger and fills untouched |
| LiveOrderRuns.RedeliveriesLeaveNoTrace | tx_trade/orders/live_state_machine.py:226-292 | inserting any number of such redeliveries at any later points of a run leaves the final order, ledger and emitted fills as they were |
| LiveOrderRuns.LedgerKeysStayUnique | tx_trade/orders/live_state_machine.py:56-74 | no run records one (source, event id) key twice |
| LiveOrderRuns.OnlyFillsMoveQuantity | tx_trade/orders/live_state_machine.py:108-319 | nothing but a fill event changes filled quantity, average price or emitted fills |
| LiveOrderRuns.OpenedRunsConserveFills | tx_trade/orders/live_state_machine.py:337-390 | from a created order on, every run keeps filled equal to the sum of emitted fills, average times filled equal to their cost, and filled at most total at most the intent quantity |
| LiveOrderEvidence.OnlyEvidenceChangesClaims | tx_trade/orders/live_state_machine.py:108-390 | over any run without confirmed evidence, commands and receipts never accept, fill, change or end an order, and a pending command stays pending |
| LiveOrderEvidence.AcceptanceNeedsEvidence | tx_trade/orders/live_state_machine.py:607-616 | an order that was ever accepted, filled or ended has seen a confirmed broker event or fill |
| LiveOrderEvidence.DoubtIsKept | tx_trade/orders/live_state_machine.py:243-264 | an unknown outcome or failed dispatch keeps the command pending and leads to SUBMISSION_UNKNOWN exactly for a new order of unknown outcome, to RECONCILING otherwise |
| LiveOrderEvidence.WorkingChangeIsTheCommand | tx_trade/orders/live_state_machine.py:470-493 | a confirmed amendment is applied exactly when it proves the pending command and that can still take effect, and the order then is what the command asked for |
| CancelRace.RaceOutcome | tx_trade/orders/live_state_machine.py:335-376 | a race of fresh confirmed fills that fit with a cancel ends in the one outcome its sums determine |
| CancelRace.RaceIsConfluent | tx_trade/orders/live_state_machine.py:432-447 | every delivery order of such a race ends in the same state, quantities, average, limit price and pending command |
| DynamicCancel.AgreeExactly | tx_trade/orders/live_state_machine.py:440-447 | any number of fills that fit and a dynamic cancel end in one state for all delivery orders if and only if there is no fill, the fills complete the order, or the order is not CREATED, VALIDATED, SUBMITTING or SUBMISSION_UNKNOWN |
| DynamicCancel.SubmissionDisagrees | tx_trade/orders/live_state_machine.py:440-447 | for every intent: while the order is being submitted, a fill of half of it and a dynamic cancel end differently in their two orders |
| ExactSum.ExactDecimalSum | tx_trade/orders/live_reconciliation_contracts.py:26-78 | returns the canonical in-bounds decimal of the mathematical sum, and refuses exactly when an input is out of bounds or no such decimal exists |
| ExactSum.Normalize | tx_trade/orders/live_reconciliation_contracts.py:55-78 | strips zeros, checks bounds and spells digits without changing the value; a refusal means no in-bounds canonical decimal has it |
| ExactSum.ExactSumDependsOnSumOnly | tx_trade/orders/live_reconciliation_contracts.py:26-78 | for valid inputs result and refusal depend on the mathematical sum alone |
| ExactSum.ExactSumIgnoresOrder | tx_trade/orders/live_reconciliation_contracts.py:26-78 | permuting the inputs changes neither result nor refusal |
| ExactSum.RefusedExactly | tx_trade/orders/live_reconciliation_contracts.py:26-78 | a call is refused if and only if an input is out of bounds or the inputs, added up at their smallest exponent and stripped of zeros, have more than 34 digits or an exponent above 6144 |
| ExactSum.OneRefusedExactly | tx_trade/orders/live_reconciliation_contracts.py:26-78 | a single in-bounds input is refused if and only if stripping its zeros lifts its exponent above 6144 |
| ExactSum.InBoundsInputCanBeRefused | tx_trade/orders/live_reconciliation_contracts.py:61-71 | 10e6144 is an in-bounds input that is refused |
| DecimalText.CanonicalDecimal | tx_trade/orders/contracts.py:947-994 | the digit-popping printer returns the shorter of the plain and scientific spelling of the canonical decimal, plain on a tie |
| DecimalText.TextReadsBack | tx_trade/orders/contracts.py:947-994 | reading the canonical text gives back the number |
| DecimalText.TextIsCanonical | tx_trade/orders/contracts.py:947-994 | two decimals print alike if and only if they are equal numbers |
| DecimalText.TextIsShortest | tx_trade/orders/contracts.py:953-957 | the text is as long as the shorter of its two spellings |
| JournalCodec.DecimalRoundTrip | tx_trade/orders/live_journal_codec.py:177-226 | whatever the codec encodes it decodes, to the number itself if and only if that has at most 28 significant digits |
| JournalCodec.RoundingIsExactUpToPrecision | tx_trade/orders/live_journal_codec.py:193-226 | normalising keeps a number if and only if it has at most 28 significant digits |
| JournalCodec.RoundsHalfToEven | tx_trade/orders/live_journal_codec.py:193-226 | a number of more than 28 digits is rounded to the nearest of 28, a tie to the even one |
| JournalCodec.EncodableExactly | tx_trade/orders/live_journal_codec.py:177-226 | a decimal is refused if and only if it has more than 128 digits, an exponent beyond 128 either way, or rounds to a number of more than 129 digits before the point |
| JournalCodec.NodeExactly | tx_trade/orders/live_journal_codec.py:239-263 | a value is encoded if and only if its records and enums are registered and all its decimals are encodable, under the tag of what it is |
| JournalCodec.DecodedFits | tx_trade/orders/live_journal_codec.py:365-376 | every decimal text the codec decodes yields a decimal within the 34 digits and the exponent range that the contracts accept |
| JournalCodec.TreeRoundTrip | tx_trade/orders/live_journal_codec.py:239-393 | every encodable nesting of registered records, enums, tuples and scalars with decimals of at most 28 significant digits decodes, past the re-encoding guard, to the same value, which encodes to the same tree |
| JournalCodec.ComesBackExactly | tx_trade/orders/live_journal_codec.py:239-393 | an encodable value comes back equal if and only if none of its decimals has more than 28 significant digits |
| JournalCodec.DecodedValueFits | tx_trade/orders/live_journal_codec.py:309-393 | every decimal in every decoded tree passes the form check of the contracts |
| JournalCodec.GuardRefusesExactly | tx_trade/orders/live_journal_codec.py:441-446 | a tree that decodes re-encodes to itself if and only if every defaulted member is spelled as its default is encoded |
| JournalCodec.AcceptedExactly | tx_trade/orders/live_journal_codec.py:404-446 | the accepted trees are exactly the trees of existing values with short decimals, and each decodes to such a value |
| JournalCodec.RecordDecodedExactly | tx_trade/orders/live_journal_codec.py:316-344 | a record node decodes if and only if the constructor accepts its members and every defaulted one equals its default |
| JournalCodec.BareDefaultIsDecoded | tx_trade/orders/live_journal_codec.py:331-344 | a defaulted enum member spelled as bare text decodes to the same record, and only the guard refuses it |
| Dedupe.DedupeAndFindConflicts | tx_trade/orders/live_reconciliation.py:138-157 | keeps the first observation of each payload and finds exactly the identities used with two payloads |
| Dedupe.FirstSeenCovers | tx_trade/orders/live_reconciliation.py:138-157 | deduplication invents no observation and keeps one for every payload |
| Dedupe.FirstSeenDistinct | tx_trade/orders/live_reconciliation.py:138-157 | no two kept observations share a payload |
| Dedupe.ConflictFree | tx_trade/orders/live_reconciliation.py:138-157 | there is no conflict if and only if no identity is used with two payloads |
| Dedupe.FirstSeenIsFirst | tx_trade/orders/live_reconciliation.py:138-157 | an observation is kept if and only if no earlier one has its payload |
| Dedupe.TouchedExactly | tx_trade/orders/live_reconciliation.py:138-157 | an observation touches a conflict if and only if one of its identities is also used with another payload |
| Dedupe.EchoesAddNothing | tx_trade/orders/live_reconciliation.py:138-157 | redeliveries change neither the payloads shown nor whether identities are consistent |
| Reconciliation.AssessReconciliation | tx_trade/orders/live_reconciliation.py:237-506 | raises exactly when accounts or times do not allow an assessment or an attributed sum is out of bounds; otherwise the status is AMBIGUOUS if and only if an identity shows two payloads, an order or fill is unconfirmed, a usable fill names two local fills or two different usable fills name one, INCOMPLETE if and only if none of that holds and some evidence is not complete, and the sorted list holds exactly what the raw observations report |
| Reconciliation.StatusMeans | tx_trade/orders/live_reconciliation.py:475-485 | the status said on the raw observations alone, both ways |
| Reconciliation.DiscrepancyMeans | tx_trade/orders/live_reconciliation.py:307-474 | for each kind, a discrepancy is found if and only if local orders, fills and holdings and the raw observations call for exactly it |
| Reconciliation.RaisesExactly | tx_trade/orders/live_reconciliation.py:248-252 | no assessment is made if and only if the accounts differ, a time comes before what it is compared with, or some instrument's holdings add up to no in-bounds decimal |
| ReconciliationMeaning.OpenConflictsExactly | tx_trade/orders/live_reconciliation.py:101-110 | some identity of open orders conflicts if and only if two observations share an observation id, or a confirmed client id, and differ in what they say |
| ReconciliationMeaning.FillConflictsExactly | tx_trade/orders/live_reconciliation.py:113-122 | the same for fills by observation id, fill id and execution number |
| Reconciliation.AssessOrders | tx_trade/orders/live_reconciliation.py:300-369 | reports pending, unusable, unknown, mismatching and missing orders, and whether open orders are ambiguous |
| Reconciliation.AssessFills | tx_trade/orders/live_reconciliation.py:369-445 | reports unusable, unresolved, colliding, mismatching and unmatched fills, and whether fills are ambiguous |
| Reconciliation.AssessPositions | tx_trade/orders/live_reconciliation.py:446-478 | raises exactly when an attributed sum is out of bounds, and otherwise reports exactly the instruments whose broker net differs from it |
| Reconciliation.ListingIsUnique | tx_trade/orders/live_reconciliation.py:485-498 | a set of discrepancies has exactly one listing in key order |
| ReconciliationVerdict.MayResumeMeansCorrespondence | tx_trade/orders/live_reconciliation_contracts.py:298-303 | may_resume holds if and only if nothing blocks or is pending, all evidence is complete and consistent, and orders, fills and positions correspond item by item |
| ReconciliationVerdict.SilentOrders | tx_trade/orders/live_reconciliation.py:307-367 | the order phase is silent if and only if distinct broker open orders and local working orders correspond one to one and none is pending |
| ReconciliationVerdict.SilentFills | tx_trade/orders/live_reconciliation.py:369-445 | the fill phase is silent if and only if distinct broker fills and local fills correspond one to one, field by field |
| ReconciliationVerdict.SilentPositions | tx_trade/orders/live_reconciliation.py:446-478 | the position phase is silent if and only if every broker net is the attributed sum and nothing is expected elsewhere |
| ReconciliationPositions.BrokerFillsExplainBrokerPositions | tx_trade/orders/live_reconciliation_contracts.py:166-202 | when local and broker state correspond, the signed sum of distinct broker fills per instrument is the broker's own net position |
| ReconciliationPositions.ExpectedIsLocalFillTotal | tx_trade/orders/live_reconciliation_contracts.py:182-202 | the attributed position of an instrument is the signed sum of its local fills |
| ReconciliationInvariance.VerdictIgnoresRedelivery | tx_trade/orders/live_reconciliation.py:278-307 | permuting observations and repeating payloads under fresh ids changes neither the status nor may_resume |
| ReconciliationInvariance.ListIgnoresRedelivery | tx_trade/orders/live_reconciliation.py:480-498 | when no identity is reused with another payload it does not change the ordered discrepancy list either |
| ReportProfiles.ReportedBounds | tx_trade/orders/live_reconciliation.py:319-445 | whichever observation of each payload is kept, what must be reported is, and what is reported may be: for fills also when a kept observation decides whether two claim one local fill |
| ReportProfiles.BoundsAreReached | tx_trade/orders/live_reconciliation.py:319-445 | one way to keep observations reports what may be reported, another leaves out what need not be |
| ReconciliationOrder.OrderIrrelevantExactly | tx_trade/orders/live_reconciliation.py:138-157 | no order of the same observations changes the discrepancies if and only if whatever some kept observation may report is reported whichever observations are kept |
| ReconciliationOrder.SameListSameSet | tx_trade/orders/live_reconciliation.py:485-498 | the ordered lists are equal exactly when the sets of discrepancies are |
| ReconciliationOrder.RedeliveredKeepsConflicts | tx_trade/orders/live_reconciliation.py:138-157 | reordering and redelivery change no conflict, also when there are some |
| ReconciliationRedelivery.RedeliveryIrrelevantExactly | tx_trade/orders/live_reconciliation.py:138-157 | no reordering and redelivery changes the discrepancies if and only if that still holds when every payload clean but for its observation id counts as usable in some observation |
| ReconciliationRedelivery.ReusedIdMatters | tx_trade/orders/live_reconciliation.py:138-157 | with a reused observation id the order matters when one payload is also shown under another id; with the reused id alone it does not, though a repetition would |
| ReconciliationRedelivery.ListDependsOnOrderUnderConflict | tx_trade/orders/live_reconciliation.py:138-157 | two orders of three observations with one reused id that report different discrepancies, for all client ids |
| ReconciliationInvariance.FreshOpenObservationIsEcho | tx_trade/orders/live_reconciliation.py:101-110 | an open order repeated under an unused observation id, at any times, is a redelivery |
| ReconciliationInvariance.FreshFillObservationIsEcho | tx_trade/orders/live_reconciliation.py:113-122 | a fill repeated under an unused observation id, at any times, is a redelivery |
| Projection.ProjectAuthoritativeOrders | tx_trade/orders/live_reconciliation_projection.py:126-247 | raises exactly when the recomputation does; otherwise the plan passes its own constructor check, and each disposition is taken exactly under its condition, with exactly the objections or projected orders that follow |
| Projection.Examine | tx_trade/orders/live_reconciliation_projection.py:179-214 | the loop over the discrepancies gathers exactly the refused ones, all reasons and one item for each projectable one |
| Projection.AuthenticSubjects | tx_trade/orders/live_reconciliation_projection.py:183-195 | no discrepancy repeats and no client id is asked about twice |
| ProjectionSafety.ReadyExactly | tx_trade/orders/live_reconciliation_projection.py:62-123 | a plan is ready if and only if the assessment is the authoritative one, something and nothing but pending orders is reported, and the broker shows each of them once, confirmed and exactly as it was sent |
| ProjectionReasons.ReasonsExactly | tx_trade/orders/live_reconciliation_projection.py:53-123 | a plan carries each reason if and only if local orders and raw observations give it: for each objection what it takes, and for a plan without authority which of mismatch, ambiguous and incomplete evidence applies |
| ProjectionReasons.DispositionExactly | tx_trade/orders/live_reconciliation_projection.py:139-247 | a plan is without authority, ready or without change exactly when the raw evidence says so, and an unsupported one names exactly the discrepancies that stay |
| ProjectionReasons.SpeaksAgainstExactly | tx_trade/orders/live_reconciliation_projection.py:62-123 | the objections to one pending order in terms of the order and the observations under its client id |
| ProjectionReasons.SeveralUnderId | tx_trade/orders/live_reconciliation_projection.py:90-95 | more than one observation matches if and only if two positions show the order's client id |
| ProjectionSafety.ProjectionIsAnAcceptance | tx_trade/orders/live_reconciliation_projection.py:223-239 | each projected order is what reducing a confirmed NEW_ACCEPTED at the observation time leaves behind |
| ProjectionSafety.PlanIsTheCommit | tx_trade/orders/live_reconciliation_projection.py:223-247 | a ready plan projects exactly the pending orders |
| ProjectionSafety.ReadyPlanClosesTheGap | tx_trade/orders/live_reconciliation_projection.py:126-247 | with the projected orders in place the same evidence shows no discrepancy, and any assessment of the committed snapshot against it is complete and may resume if and only if recovery is not blocked |
| ProjectionTiming.CommitCanBeAssessed | tx_trade/orders/live_reconciliation_contracts.py:279-296 | some time makes the committed snapshot of a ready plan valid and assessable with the same evidence if and only if no projected order is newer than the fill or the position evidence |
| ProjectionTiming.ReassessableExactly | tx_trade/orders/live_reconciliation_contracts.py:158-164 | at a given time it is valid and assessable if and only if no projected order is newer than that time and the time suits the evidence |
| ProjectionTiming.StaleEvidenceStops | tx_trade/orders/live_reconciliation_contracts.py:279-296 | for every intent: with open orders observed after older fill and position evidence the plan is ready and its commit can be assessed at no time |
| RecencyWindow.WindowMembership | tx_trade/market_data/ingress.py:167-171 | a key is cached if and only if it was touched and fewer than dedupe_capacity other keys were touched since |
| RecencyWindow.WindowIsRecent | tx_trade/market_data/ingress.py:167-171 | the cache is the most recent part of the keys ordered by last touch |
| IngressQueues.PublishKeepsValid | tx_trade/market_data/ingress.py:117-203 | a publish keeps every lane within its capacity and quote keys distinct |
| IngressQueues.PopKeepsValid | tx_trade/market_data/ingress.py:235-285 | a pop keeps the lanes, turns and burst counter within bounds |
| IngressHistory.RunsAreExplained | tx_trade/market_data/ingress.py:117-285 | in every reachable state FIFO lanes pass on what they accepted in order, a queued quote is the highest-sequence event admitted for its key since the key last left, and the cache is the window over the touches |
| IngressHistory.LanesConserve | tx_trade/monitoring/metrics.py:103-124 | per lane accepted equals popped plus depth, depth is within capacity, and received equals accepted, coalesced, dropped and duplicate together |
| IngressHistory.HitsWereAdmitted | tx_trade/market_data/ingress.py:122-134 | a dedupe hit means the key was accepted or coalesced before |
| IngressHistory.AdmittedAgainOnlyOutsideWindow | tx_trade/market_data/ingress.py:122-134 | a key is admitted again only after dedupe_capacity other keys have been touched |
| IngressDecisions.EveryRecordFollows | tx_trade/market_data/ingress.py:117-285 | in every run each publish was decided and each pop served as the log before it demands: a duplicate if and only if its candidate was touched within the window or a queued quote of its stock is no older, coalesced if and only if an older one waits, dropped if and only if accepted less popped has reached the lane's capacity, accepted otherwise; and the lane that goes first by burst and turns |
| IngressDecisions.NextDecision | tx_trade/market_data/ingress.py:117-203 | the decision of the next publish, for every run before it |
| IngressDecisions.NextServed | tx_trade/market_data/ingress.py:235-285 | the event of the next pop, for every run before it; none if and only if nothing waits |
| IngressDecisions.RecentMeans | tx_trade/market_data/ingress.py:160-171 | a candidate is cached if and only if it was touched and fewer than dedupe_capacity others have been touched since |
| IngressWaiting.BoundedWaiting | tx_trade/market_data/ingress.py:235-285 | with publishers interleaving arbitrarily, position k of the tick or quote lane is served within 2(limit+1)(k+1) pops and of the control or diagnostic lane within 4(k+1) |
| IngressWaiting.WaitShrinks | tx_trade/market_data/ingress.py:254-285 | every pop lowers the remaining wait of every queued position |
| Ingress.BoundedIngress.constructor | tx_trade/market_data/ingress.py:70-115 | a new ingress is empty, has set its capacities and counts on from what the metrics showed |
| Ingress.BoundedIngress.TryPublish | tx_trade/market_data/ingress.py:117-146 | the decision is the one the log of earlier calls leaves: dropped exactly when the lane is full, coalesced or a duplicate exactly by stock, sequence and window, accepted otherwise; queues, cache and counters take that step; a drop, and nothing else, changes health, damage and shutdown, as the lane demands |
| Ingress.BoundedIngress.PublishFifo | tx_trade/market_data/ingress.py:173-182 | accepts if and only if the lane has room, and then appends |
| Ingress.BoundedIngress.PublishQuote | tx_trade/market_data/ingress.py:184-203 | an event no newer than the queued one of its stock is a duplicate, a newer one takes its place, and a new stock is appended if and only if there is room |
| Ingress.BoundedIngress.RememberKey | tx_trade/market_data/ingress.py:167-171 | moves the key to the end and evicts the oldest beyond the capacity |
| Ingress.BoundedIngress.HandleOverflow | tx_trade/market_data/ingress.py:205-233 | the exact damage, health and shutdown after a drop, also when the damage finds no room |
| Ingress.HandledMeans | tx_trade/market_data/ingress.py:205-233 | a drop fails health when it is a control or diagnostic event or the damage finds no room, and degrades it otherwise; the damage names the lane, a dropped tick is counted, and shutdown is asked for in the same two cases, the missing room first |
| Ingress.BoundedIngress.TryPop | tx_trade/market_data/ingress.py:235-252 | queues and counters take the pop step, and the popped event is one the log of earlier calls lets go first, or none because nothing waits |
| Ingress.BoundedIngress.PopCritical | tx_trade/market_data/ingress.py:254-267 | serves the lane whose turn it is and flips the turn only when both wait |
| Ingress.BoundedIngress.PopMarket | tx_trade/market_data/ingress.py:269-285 | the same for quotes and ticks |
| Ingress.PublishTallied | tx_trade/monitoring/metrics.py:81-124 | recording a result keeps the counters equal to the history, counted on from where they stood |
| Ingress.BoundedIngress.CountersTell | tx_trade/monitoring/metrics.py:81-124 | in every reachable state each lane's counters add up: accepted is popped plus waiting, received splits into the four decisions, overflows are drops |
| Ingress.BoundedIngress.DropsAreIncomplete | tx_trade/market_data/ingress.py:205-233 | in every reachable state, whoever else uses the tracker, each dropped event has its session incomplete unless the session was cleared since |
| Monitoring.ReasonIsKept | tx_trade/monitoring/health.py:77-89 | the reason list stays bounded and without repetition, and a reason left out leaves a marker |
| Monitoring.PipelineHealth.ReasonsExactly | tx_trade/monitoring/health.py:77-89 | in every reachable health the list is the reasons told, each once and in order, or the first of them and the marker |
| Monitoring.ListedExactly | tx_trade/monitoring/health.py:158-167 | over any sequence of reasons the list holds the first uses in order, or the first ones and the marker when there are too many |
| Monitoring.PipelineHealth.Change | tx_trade/monitoring/health.py:70-89 | health only worsens |
| Monitoring.ControlledShutdown.RequestShutdown | tx_trade/monitoring/health.py:230-237 | only the first reason is kept, and only its request reports true |
| Monitoring.SessionImpactTracker.MarkIncomplete | tx_trade/monitoring/health.py:130-146 | the session is incomplete afterwards whether or not it found room |
| Monitoring.SessionImpactTracker.RecordDroppedTick | tx_trade/monitoring/health.py:148-156 | counts the drop and keeps the first and last sequence |
| Monitoring.SessionImpactTracker.EffectiveTerminalStatus | tx_trade/monitoring/health.py:169-177 | the status is incomplete for a damaged session and as requested otherwise |
| Monitoring.IncompleteExactly | tx_trade/monitoring/health.py:130-203 | over all runs a session ends incomplete if and only if it was damaged after its last clearing or room ever ran out |
| Monitoring.DamageSticks | tx_trade/monitoring/health.py:169-203 | over any sequence of tracker operations, damage makes the terminal status incomplete until the session is cleared |
| Monitoring.ImpactExactly | tx_trade/monitoring/health.py:130-203 | over all runs a session is on record if and only if some damage to it was kept since its last clearing, with exactly the reasons, drop count and first and last dropped sequence of that damage |
| Monitoring.RoomSuffices | tx_trade/monitoring/health.py:130-140 | room never runs out while no more sessions are named than it has room for |
| Monitoring.SessionImpactTracker.StatusExactly | tx_trade/monitoring/health.py:130-203 | in every reachable tracker, whoever used it, the status is incomplete if and only if the session was damaged since its last clearing or room ever ran out |
| Monitoring.IngressMetrics.RecordResult | tx_trade/monitoring/metrics.py:81-124 | counts one result on one lane, or nothing when the depth exceeds the capacity |
| StaQueue.BoundedStaQuoteQueue.TryPublish | tx_trade/market_data/ingress.py:368-399 | queues, parks in the slot or loses, and counts it once; only an overflow touches health, damage and shutdown, and by what exactly follows from room and loss |
| StaQueue.HandledMeans | tx_trade/market_data/ingress.py:389-403 | an overflow degrades health under its own reason; health fails and shutdown is asked for when the mark finds no room and when a notification is lost, in that order, and only the first request counts |
| StaQueue.NothingDisappears | tx_trade/market_data/ingress.py:368-422 | over all runs every notification offered with room is popped in order or queued, and every other one is spilled, parked or counted as lost |
| StaQueue.OfferFate | tx_trade/market_data/ingress.py:368-399 | in every reachable state an offer is lost if and only if queue and slot are full, parked if and only if only the queue is, and queued otherwise |
| StaQueue.BoundedStaQuoteQueue.OverflowsAreIncomplete | tx_trade/market_data/ingress.py:391-398 | after each overflow the session is incomplete unless it was cleared since |
| Recording.DeliveredWithoutGaps | tx_trade/market_data/sequencer.py:23-31 | over all runs a session's delivered envelopes carry 0, 1, 2, ... without gap and are those of the first events popped, none missing before the halt |
| Recording.DeliveredExactly | tx_trade/market_data/ingress.py:481-522 | over all runs an attempt is delivered if and only if it passes and all before it went well, as the envelope its mapper made under the number of earlier attempts for its session, and the recorder has halted if and only if one did not go well |
| Recording.HaltIsFinal | tx_trade/market_data/ingress.py:481-522 | after the first failure nothing is delivered any more |
| Processor.IngestSequencer.Next | tx_trade/market_data/sequencer.py:23-31 | hands out the next sequence of the session, or fails at the signed 64-bit limit without using one |
| Processor.CapturedEventPipeline.Accept | tx_trade/market_data/pipeline.py:36-64 | delivers exactly when every stage accepts and every copied field survived, and uses up a sequence from the allocation on |
| Processor.AcceptsExactly | tx_trade/market_data/pipeline.py:36-64 | an event is delivered if and only if it validates, the next sequence is within 64 bits, the mapper returns its own fields under that sequence and the sink takes it; the sequence is used up as soon as the event validates |
| Processor.FailureIsNamed | tx_trade/market_data/ingress.py:489-521 | a failed attempt damages its session under one reason before delivery and another after it |
| Processor.StoppedMeans | tx_trade/market_data/ingress.py:489-521 | a failure tells health its reason, marks the session, and asks for shutdown; without room for the mark health fails as well |
| Processor.BoundedIngressProcessor.ProcessOne | tx_trade/market_data/ingress.py:481-522 | a halted processor refuses untouched; otherwise the popped event is attempted once, a success changes nothing but the record, and a failure halts, keeps the event, is counted, marks its session incomplete and has exactly its own effect on health and shutdown |
| Processor.BoundedIngressProcessor.Drain | tx_trade/market_data/ingress.py:524-529 | processes until the limit is reached, the ingress is empty or an attempt fails, and counts what it recorded; a halted processor refuses at once |
| Processor.BoundedIngressProcessor.DeliveredIsGapFree | tx_trade/market_data/ingress.py:455-533 | the gap-free guarantee for the objects themselves |
| Processor.BoundedIngressProcessor.FailureIsIncomplete | tx_trade/market_data/ingress.py:489-521 | in every reachable state the event that halted the processor has its session incomplete unless the session was cleared since |
| Processor.PipelineStorageFailureNotifier.NotifyStorageFailure | tx_trade/market_data/ingress.py:555-564 | a storage failure is counted, fails health, marks the session incomplete and requests shutdown under its own reason |
| Processor.PipelineStorageFailureNotifier.FailuresAreIncomplete | tx_trade/market_data/ingress.py:555-564 | after each storage failure the session is incomplete unless it was cleared since |
| SessionDamage.IncompleteIffHurt | tx_trade/monitoring/health.py:169-177 | over all interleavings of publishers, processor, STA queue, storage failures and clearings a session is reported incomplete if and only if a drop, failed attempt, STA overflow or storage failure hit it since it was last cleared, or the tracker ran out of room |
| SessionDamage.FailureSticks | tx_trade/market_data/ingress.py:205-233 | any drop, failed attempt, STA overflow or storage failure leaves its session incomplete for the rest of the run unless it is cleared |
| PaperCosts.FeesAreValid | tx_trade/orders/execution_policies.py:154-205 | a charged fee is never negative and names a currency exactly when it is not zero |
| PaperCosts.FeesTelescope | tx_trade/orders/execution_policies.py:189-205 | the fees of partial fills add up to one rounding of the cumulative amount |
| PaperCosts.SplitDoesNotMatter | tx_trade/orders/execution_policies.py:163 | two splits of one quantity cost the same in total |
| PaperCosts.FeesWithinHalfAQuantum | tx_trade/orders/execution_policies.py:189-205 | the total is within half a quantum of the exact fee |
| PaperCosts.FeesAreWholeQuanta | tx_trade/orders/execution_policies.py:189-205 | the total is the whole number of quanta nearest to the exact fee, upwards on a tie |
| PaperCosts.ChargedExactly | tx_trade/orders/execution_policies.py:154-205 | a fee is charged if and only if quantity was newly filled and the instrument's first rule names the currency given; each refusal has its own exact condition |
| PaperCosts.PositionsStayValid | tx_trade/orders/position_ledger.py:101-148 | applying a valid fill never builds a position its constructor refuses |
| PaperCosts.AcceptedExactly | tx_trade/orders/position_ledger.py:84-107 | a sequence of fills is accepted if and only if they share a key, are in time order and their fees name one currency |
| PaperCosts.RefusedFor | tx_trade/orders/position_ledger.py:84-107 | a fill is refused for another key, an earlier time or another fee currency, in that order, and for nothing else |
| PaperCosts.FillMoves | tx_trade/orders/position_ledger.py:109-148 | an adding fill raises average times net by exactly quantity times price, a reducing one keeps the average, one that opens or flips sets it to its price, one that flattens leaves none |
| PaperCosts.FoldMoves | tx_trade/orders/position_ledger.py:109-148 | the same for the last fill of every accepted sequence |
| PaperCosts.OneDirectionCost | tx_trade/orders/position_ledger.py:114-129 | fills of one direction leave average times net equal to the sum of quantity times price |
| PaperCosts.FoldAddsUp | tx_trade/orders/position_ledger.py:109-148 | the net is the signed sum of quantities, the fees are the sum of fees, the version counts the fills |
| PaperCosts.AverageWithinBuildingPrices | tx_trade/orders/position_ledger.py:114-129 | the average open price stays within the prices of the fills that opened or added since the position was last flat or flipped |
| DurableOutput.Materialize | tx_trade/app/research_output.py:127-162 | the line by line assembly returns all lines in order, or fails exactly when they exceed the limit |
| DurableOutput.DurablePrefixBytes | tx_trade/app/research_paper.py:502-533 | the two loops sum the committed market lines and the paper lines of the checkpoint |
| DurableOutput.DurableCoordinatorSink.Publish | tx_trade/app/research_paper.py:168-245 | takes the publish step with the given envelope in the place of its sequence: rows and checkpoint in one commit, or no durable change; an unknown sequence is refused untouched |
| PaperReplay.ConcatLength | tx_trade/app/research_output.py:322-329 | the running byte counter that is compared with the limit is the length of the output |
| PaperReplay.ConcatPlaces | tx_trade/app/research_output.py:322-329 | each line stands in the output where the bytes of the lines before it end |
| CrashDecisions.LinesExactly | tx_trade/app/research_output.py:127-162 | the one-shot output has a market line for every envelope in order, then a line for every paper event under the decision on its own envelope, then one summary |
| PaperReplay.PlayExtends | tx_trade/app/research_output.py:127-149 | one more envelope appends its events and leaves the lines of earlier events as they were |
| PaperReplay.SameDecision | tx_trade/app/research_paper.py:175-186 | the decision the durable sink finds is the one the output dictionary holds |
| ResearchState.OrderRowsSorts | tx_trade/research/sqlite_repository.py:786-796 | reading by output sequence permutes the rows into increasing order |
| CrashDecisions.CommitExactly | tx_trade/research/sqlite_repository.py:594-704 | a batch is repeated if and only if it equals the one stored for its source, applied as a whole if and only if it continues an active run at its version and cursor with unused output sequences, a conflict otherwise |
| CrashDecisions.CompleteExactly | tx_trade/research/sqlite_repository.py:707-784 | a run is completed if and only if it is active at the given version and last cursor, every envelope has a batch and its rows fill the sequences below the summary, market rows first |
| CrashDecisions.ReadExactly | tx_trade/research/sqlite_repository.py:786-826 | an outbox is read if and only if the run is complete and its rows have no gap, market rows first and one summary last, and then it is all rows in order |
| CrashResume.PrefixIsCommitted | tx_trade/app/research_paper.py:502-533 | the byte count recomputed on resume is the sum of the payloads committed so far |
| CrashResume.InsertedIsLaid | tx_trade/app/research_paper.py:189-225 | however commits interleave market and paper rows, they are the rows of the final layout |
| CrashDecisions.RowsExactly | tx_trade/app/research_paper.py:186-225 | in every state that crashes can leave, the outbox holds exactly the rows of the committed envelopes, each with its sequences, source and line, and the summary when complete |
| CrashResume.CommitApplies | tx_trade/research/sqlite_repository.py:594-704 | a publish by a process that holds the committed state is never refused |
| CrashResume.CrashesAreHarmless | tx_trade/app/research_paper.py:705-912 | however often the process dies, the durable state is one an uninterrupted run passes through, and a live process holds what it would have held |
| CrashDecisions.ResumesExactly | tx_trade/app/research_paper.py:705-844 | from wherever crashes have left it, resuming changes nothing durable and succeeds if and only if the run is not complete and neither market lines nor committed rows exceed the limit |
| CrashDecisions.PublishesExactly | tx_trade/app/research_paper.py:168-245 | a live process commits the next envelope if and only if all lines up to it fit and it does not die before the commit, and survives if and only if it also does not die after |
| CrashDecisions.FinishesExactly | tx_trade/app/research_paper.py:854-900 | it completes the run if and only if every envelope is committed, the whole output fits and it does not die before |
| CrashResume.OutboxIsOneShot | tx_trade/app/research_paper.py:836-912 | a completed outbox, read in output order, is byte for byte the one-shot output |
| CrashResume.CompletableExactly | tx_trade/app/research_paper.py:836-912 | from wherever crashes have left it, a run can be completed if and only if its one-shot output fits the limit |

## Left out

- LiveOrderSafety.StepIsSafe: quantities, prices and averages of the reducers are exact reals; the ambient Decimal context of Python, which rounds at 28 digits, is not modelled.
- LiveOrderRuns.RedeliveriesLeaveNoTrace: a fingerprint is the payload it digests; the session generation and receive counter of a correlation carry no decision and are dropped. The fingerprint of the source rounds quantities and prices at 28 digits, so an altered event that differs only beyond is an exact duplicate there and a conflict here; order, ledger and fills are untouched either way.
- Reconciliation.AssessReconciliation: whether a sum is within the bounds of exact_decimal_sum is a parameter that decides what ExactSum defines; discrepancies are gathered as sets, since the source visits observations in the order of an opaque text key and sorts at the end; the sort key is any strict total order.
- Projection.ProjectAuthoritativeOrders: the sorted tuples of reasons and discrepancy ids are sets.
- ProjectionSafety.ReadyPlanClosesTheGap: the commit itself is a journal transaction outside this model; the committed snapshot is the local one with the projected orders in place.
- JournalCodec.TreeRoundTrip: JSON text, base64 and ISO time spellings are parameters that read back what they write; constructors of registered records are a parameter that, having accepted members, accepts equal members whose decimals fit the form check of the contracts.
- IngressWaiting.BoundedWaiting: the lock is one atomic step per call; fairness of thread scheduling is not modelled.
- Ingress.BoundedIngress.TryPublish: the handling of an overflow after the lock is released is part of the same step.
- StaQueue.BoundedStaQuoteQueue.TryPublish: the same for the STA queue; that a lost notification implies a requested shutdown holds between completed calls, not between the two halves of one.
- Ingress.BoundedIngress.constructor: capacities set differently on the metrics before, for which the source raises, are a precondition; two ingresses counting on one metrics object are not modelled.
- SessionDamage.IncompleteIffHurt: one ingress, one processor and one STA queue over one tracker.
- Recording.DeliveredWithoutGaps: mapper, sink and observer are parameters of each attempt; a sink that raises is taken not to have kept the envelope; the comparison loop over copied field names is one predicate on four fields.
- PaperCosts.FeesTelescope: decimal128 rounding of intermediate products and the sorted order of fee rules are not modelled.
- PaperCosts.FoldAddsUp: the 34-digit context of the ledger and its arithmetic failure are not modelled.
- CrashResume.OutboxIsOneShot: the broker and the strategy are one deterministic function, a checkpoint restores exactly what it saved, and SQLite transactions are atomic; count limits other than the byte limit are not modelled.
- Identifier syntax, type checks, error texts, time zones and repr redaction: single-branch facts.
- File descriptors, sidecar files, database inspection, progress budgets and schema checks: operating system behaviour.
- COM callbacks, quote client, user interfaces and replay pacing: foreign calls.
- Slippage, limit checks and the matching loop of the paper broker, and the strategy coordinator: not needed by the properties above.
- Clocks and the observed_at of health snapshots: parameters of the environment.
- Size property accessors and read-only snapshots of queues, metrics and health: they only copy fields.
