# Events contract: escrow verification

A Dafny model of the Soroban events contract (`contracts/events/src`): one contract that
holds the money of hackathons, bounties, grants and crowdfunding campaigns, pays it out as
prizes and milestones, and refunds it when an event is cancelled. The model follows the
Rust code branch by branch, with its saturating and checked arithmetic, its error codes and
the order of its checks, and proves what the contract promises about that money.

## How it is built

- `Numeric`, `Sums`, `Types`, `Escrow`: integer widths, sums, the stored records, token
  balances and the fee.
- `Milestones`, `Refunds`, `Campaign`: the arithmetic of the three ways money is divided.
- `Books`: all storage of one event (a `Book`), and what each entry point writes to it. A
  book also carries the list of token transfers made for its event. The contract stores no
  such list; it is the yardstick its bookkeeping is measured against (`Audit`).
- `Invariants`, `Steps`, `Preservation`: what holds of an event in every reachable state,
  the steps it can take, and the proof that each keeps it.
- `World`, `Calls`, `Backing`, `Safety`, `Runs`: the whole contract as functions from state
  and call to a new state or an error, the proof that every call is one step of one event
  paid for by that event's own transfers, and runs from a fresh deployment.
- `Effects`, `Finality`: what each call leaves behind, told from the call and the state
  before it without the functions that compute it, and what no later call takes back.
- `Exactness`: the room those steps need is exactly what the invariant needs.
- `Histories`, `Paging`, `Walks`, `Settlements`, `Campaigns`, `Claims`, `Acceptance`,
  `Guarantees`, `Outcomes`, `Replay`, `Access`, `Inputs`: the theorems, and concrete inputs
  for the properties the code does not have.
- `TokenIndex`, `Migration`: two smaller machines, each a class proved against functions;
  `Registry` ties the first to runs of the contract.
- `Validation`, `EventsContract`: the loops and the entry points as methods of an object
  that updates its fields in place and restores them when a call fails. Each is proved to
  do exactly what its function in `World` says, so the theorems about runs of those
  functions are theorems about runs of the object.

An entry point that fails leaves no trace, as a Soroban transaction does. Authorised
addresses, ledger time and the accounts whose transfers the token refuses are inputs of
every call, arbitrary from one call to the next. Anyone may send tokens to the contract at
any time.

## Premises

- No account holds i128::MAX units of a token, so a transfer of a saturated amount fails.
- The contributions of one event other than the owner's total at most i128::MAX over its
  life, or come from one account (`FundFits`).
- One event uses fewer than 2^32 winner rows and has fewer than 2^32 unclaimed prizes
  (`SelectPrizesFits`).
- These two are exact: a step keeps the event invariant if and only if they hold of it
  (`Exactness.StepKeepsExactlyWhen`). Past them the saturating total stops being the sum
  over the contributors (`Inputs.ClippedTotal` gives the calls), the saturating count stops
  counting, and the last row is overwritten.
- The whitelist never holds 2^32 tokens, where its saturating count stops.
- The contract never authorises itself, nobody else moves its tokens, and ledger time does
  not run backwards.

## Where the code differs from its comments or from what a reader may expect

- `types.rs` says grants selected before the roster existed keep a walk over winner rows.
  The code has no such walk: without a roster `standing` answers NoSubmissions
  (`grant.rs:20-30`). The model follows the code.
- A campaign with more milestones than units in its escrow cannot release anything until
  more is contributed: its next release computes to zero and is refused. `Inputs.StuckCampaign`
  gives the calls, with 100,000,001 milestones; with at most 100,000,000 it cannot happen
  (`Claims.CampaignReleasePays`).
- The fee is the floored share only up to a product of i128::MAX; above it the saturating
  product charges less (`Escrow.FeeIsFlooredShare`, `Inputs.UnderchargedFee`).

## Model

| member | source | states |
|---|---|---|
| `Numeric.TruncDiv` | contracts/events/src/escrow.rs:9-11 | `i128` division by a positive number truncates towards zero: the floor for non-negative dividends, minus the floor of the magnitude for negative ones |
| `Escrow.FeeIsFlooredShare` | contracts/events/src/escrow.rs:9-11 | the fee is floor(min(amount · bps, i128::MAX) / 10,000), so floor(amount · bps / 10,000) if and only if that quotient is at most i128::MAX / 10,000 |
| `Inputs.UnderchargedFee` | contracts/events/src/escrow.rs:9-31 | a reachable input past that point: an accepted create_event of 10^37 at 1,000 bps whose fee is less than a fiftieth of the tenth it should be |
| `Escrow.FeeBounds` | contracts/events/src/escrow.rs:9-11 | at a rate within the 1,000 bps cap the fee is at most a tenth of the amount, a positive amount leaves a positive net, and net plus fee is the amount |
| `Escrow.TransferEffect` | contracts/events/src/escrow.rs:33-48 | a token transfer goes through exactly when the amount is within the payer's balance, neither side is refused and the payee has room; it then moves the amount and touches no other balance |
| `Escrow.DepositEffect` | contracts/events/src/escrow.rs:13-31 | a deposit that goes through did not saturate: the contract gains exactly the amount, the payer loses amount plus fee and the fee account gains the fee, parts adding up for a holder that plays two |
| `Escrow.ReleaseEffect` | contracts/events/src/escrow.rs:33-37 | a release moves exactly its amount from the contract to the recipient, whoever that is, and touches no other balance |
| `Escrow.ReleaseWithFeeEffect` | contracts/events/src/escrow.rs:57-75 | a release with fee takes exactly the gross amount from the contract and divides it between recipient and fee account with nothing lost, also when they coincide |
| `Milestones.FloorsProperty` | contracts/events/src/grant.rs:34-63 | for an accepted award every milestone's floored share is positive and the shares fall short of the award by at most n − 1 |
| `Milestones.SettleOne` | contracts/events/src/grant.rs:68-100 | settling any open milestone pays a positive amount within the part not yet settled, its floored share unless it is the last, and leaves a record that is exact for the enlarged set of settled milestones |
| `Milestones.AnyOrderSettlesExactly` | contracts/events/src/grant.rs:34-100 | for every accepted award, even or split, and every order of its n milestones, every settlement pays, they sum to exactly the award, all but the last pay their floored share and the last exceeds its own by at most n − 1 |
| `Milestones.SettleAppend` | contracts/events/src/grant.rs:68-100 | settling one more milestone after an order pays its share of what that order left |
| `Milestones.RefusedAwardHasEmptyMilestone` | contracts/events/src/grant.rs:52-63 | the comparison used for even milestones and the scan used for splits both hold if and only if every milestone's share can be computed and is positive |
| `Refunds.ShareBounds` | contracts/events/src/event_ops.rs:562-568 | a full refund is the whole contribution and a pro-rata one floor(min(contribution · escrow, i128::MAX) / total); never more than was put in, and within one unit of the exact share unless the product saturates |
| `Refunds.LargerContributionNoSmallerRefund` | contracts/events/src/event_ops.rs:562-568 | a larger contribution never gets a smaller refund, saturating or not |
| `Refunds.ProRataWithinEscrow` | contracts/events/src/event_ops.rs:467-473 | pro-rata refunds sum to at most the escrow at start even when products saturate, and otherwise leave less than one unit per contributor |
| `Refunds.FullRefundsUseTheEscrow` | contracts/events/src/event_ops.rs:620-633 | in the full branch the refunds plus the owner's residual equal the escrow at start |
| `Campaign.ReleasesAreNearEqual` | contracts/events/src/grant.rs:169-183 | with no deposit in between, k remaining releases of an escrow R pay floor(R/k) until the last R mod k, which pay one unit more, and sum to R |
| `Campaign.ReleasePaysExactlyWhen` | contracts/events/src/grant.rs:169-189 | a release pays something if and only if the escrow has a unit per open milestone, never exceeds the escrow, and leaves a unit for every milestone still open |
| `Claims.CampaignReleasePays` | contracts/events/src/grant.rs:169-189 | in every active campaign the next release pays if and only if escrow ≥ open milestones, which holds of every funded campaign with at most 100,000,000 milestones however deposits are interleaved |
| `Claims.CampaignClaimedExactlyWhen` | contracts/events/src/grant.rs:115-226 | a campaign claim succeeds if and only if the contract is open, bump and milestone are in range, the owner and the validator, or the admin while none is set, ask with a fresh id for the owner, the milestone is unreleased, escrow ≥ open milestones and the token accepts net and fee at the campaign's own rate or else the contract's; lack of contract funds is never the reason it fails |
| `Campaigns.HistoryStaysOnCourse` | contracts/events/src/grant.rs:169-191 | over any history of a campaign without a deposit, the i-th claim releases the i-th of the near-equal releases of the escrow R over its k open milestones, and the escrow left is floor(R/k) per open milestone plus the remainder still due |
| `Campaigns.CompletedCampaignReleasedAll` | contracts/events/src/grant.rs:169-215 | a campaign that completes without a further deposit has released exactly its escrow, in nondecreasing pieces of floor(R/k) or one unit more |
| `Inputs.TooManyMilestonesPayNothing` | contracts/events/src/grant.rs:178-186 | with 100,000,001 open milestones the smallest contribution gives a release of zero |
| `Inputs.StuckCampaign` | contracts/events/src/grant.rs:169-189 | a reachable input: after a deployment, create_event with 100,000,001 milestones and an accepted contribution of 100,000,000, every claim_milestone by anyone is refused |
| `Invariants.NewBookInv` | contracts/events/src/event_ops.rs:134-203 | the storage create_event writes satisfies the event invariant |
| `Preservation.FundKeeps` | contracts/events/src/event_ops.rs:364-409 | add_funds keeps the event invariant: contributor list, slots and amounts stay mutually inverse without duplicates or the owner, and the stored total stays the sum over the list |
| `Preservation.SelectPrizesKeeps` | contracts/events/src/event_ops.rs:744-819 | selecting a batch of prizes keeps reservation = sum of unpaid rows ≤ escrow, the unclaimed count, one award per position and every award pointing at its row |
| `Preservation.ClaimPrizeKeeps` | contracts/events/src/event_ops.rs:941-973 | claiming a prize keeps that invariant, and completes the event only when every row is paid |
| `Preservation.SelectGrantsKeeps` | contracts/events/src/event_ops.rs:820-876 | selecting grant awards reserves exactly the roster's total within the escrow, with nothing settled yet |
| `Preservation.ClaimGrantKeeps` | contracts/events/src/grant.rs:150-215 | releasing a milestone keeps reservation = what is left of every award, progress = flags, and settled = paid plus forfeited |
| `Preservation.ForfeitGrantKeeps` | contracts/events/src/grant.rs:293-306 | forfeiting a milestone keeps the same, its share staying in the escrow without being owed |
| `Preservation.ClaimCampaignKeeps` | contracts/events/src/grant.rs:169-215 | a campaign release keeps claimed count = number of flags < n while active and all n flagged on completion |
| `Preservation.StartCancelKeeps` | contracts/events/src/event_ops.rs:457-513 | start_cancel keeps the event invariant: what becomes owed to contributors and owner is within what the event's transfers left in the contract |
| `Preservation.CrankSlotKeeps` | contracts/events/src/event_ops.rs:548-596 | one slot of the crank, paid or refused, moves its share from pending to paid or held, keeps the invariant and leaves the dust as it was |
| `Preservation.FinalizeKeeps` | contracts/events/src/event_ops.rs:614-639 | finalize_cancel keeps the invariant and the dust: nothing was still pending |
| `Preservation.CollectKeeps` | contracts/events/src/event_ops.rs:658-665 | claim_refund keeps the invariant and the dust |
| `Preservation.StepKeepsBook` | contracts/events/src/event_ops.rs:348-977 | every enabled step of an event whose counters have room keeps the event invariant |
| `Exactness.FundKeepsExactlyWhen` | contracts/events/src/event_ops.rs:399-407 | an accepted contribution keeps the event invariant if and only if the stored total has room for it or is all its contributor's |
| `Exactness.LastRowOverwritten` | contracts/events/src/storage.rs:395-405 | with every u32 row index used, a further batch overwrites an earlier prize's row |
| `Exactness.SelectKeepsExactlyWhen` | contracts/events/src/event_ops.rs:777-811 | an accepted batch keeps the event invariant if and only if a row index is left and the unclaimed count has room |
| `Exactness.StepKeepsExactlyWhen` | contracts/events/src/event_ops.rs:348-977 | an enabled step keeps the event invariant if and only if the counters it adds to have room, so the premise is exact |
| `Backing.NetCoversLiability` | contracts/events/src/event_ops.rs:543-598 | what an event's own transfers left in the contract covers its status-dependent liability |
| `Safety.CallActs` | contracts/events/src/event_ops.rs:348-977 | every call that names an event and succeeds is one enabled step on that event alone, and changes the contract's balances by exactly what that step's transfers say |
| `Safety.CreateOpens` | contracts/events/src/event_ops.rs:92-236 | create_event opens an event under an id never used before and funds it by exactly its budget |
| `Safety.StepKeepsWorld` | contracts/events/src/event_ops.rs:92-977 | every call, whoever makes it and whichever transfers the token refuses, keeps every event's invariant and the backing of every token |
| `Runs.DeploymentIsReachable` | contracts/events/src/admin.rs:56-83 | every deployment with a rate within the cap is reachable |
| `Runs.StepIsReachable` | contracts/events/src/event_ops.rs:92-977 | whatever a lawful call makes of a reachable state is reachable |
| `Runs.ReachableInv` | contracts/events/src/event_ops.rs:92-977 | the invariant holds in every state reachable from a fresh deployment |
| `Guarantees.AlwaysSolvent` | contracts/events/src/event_ops.rs:348-673 | in every reachable state, for every token, the contract's balance is at least the sum over all events of what they may still have to pay out |
| `Claims.BatchNeverShort` | contracts/events/src/event_ops.rs:570-595 | a crank batch never holds a refund back for lack of contract funds: each transfer it tries succeeds if and only if the token accepts it |
| `Claims.HeldWithinBalance` | contracts/events/src/event_ops.rs:658-665 | a held refund is always within the contract's balance |
| `Claims.ResidualWithinBalance` | contracts/events/src/event_ops.rs:620-633 | the owner's residual is always within the contract's balance |
| `Acceptance.ParamsAcceptedExactlyWhen` | contracts/events/src/event_ops.rs:98-174 | event parameters pass if and only if the token is supported, the title at most 120 long, the budget positive, the floors present, positive and within it, the override at most 1,000 bps, and the pillar pays out this way: at once, over n > 0 equal milestones, or by 1 to 20 positive shares totalling 10,000 |
| `Acceptance.EventCreatedExactlyWhen` | contracts/events/src/event_ops.rs:92-189 | an event is created if and only if the contract is open, its owner asks with a fresh id and acceptable parameters, an id below u64::MAX is left, and the owner can pay budget and fee at the event's own rate or else the contract's, a campaign paying nothing |
| `Acceptance.FundsAcceptedExactlyWhen` | contracts/events/src/event_ops.rs:348-421 | a contribution is accepted if and only if the contract is open, it is at least 100,000,000, the event is active, the contributor asks with a fresh id and can be numbered, and can pay it with the fee at the event's own rate or else the contract's, none for a campaign |
| `Acceptance.BatchSelectedExactlyWhen` | contracts/events/src/event_ops.rs:744-819 | a batch of winners is selected if and only if its positions were never awarded, floors are met, the escrow covers it beside every unpaid prize and a u32 can index its rows |
| `Acceptance.GrantSelectedExactlyWhen` | contracts/events/src/event_ops.rs:820-876 | grant awards are selected if and only if every milestone of each pays, nobody is named twice, floors are met and the escrow covers them |
| `Acceptance.PrizesSelectedExactlyWhen` | contracts/events/src/event_ops.rs:683-819 | select_winners of a single-release event goes through if and only if it is open and active, the manager, or the owner while none is delegated, asks with a fresh id for 1 to 20 prizes of distinct positions never awarded, positive, at or above the first floor listed for each, bumps at most 100, and the escrow covers them beside every unpaid prize |
| `Acceptance.GrantsSelectedExactlyWhen` | contracts/events/src/event_ops.rs:683-876 | a grant selection goes through if and only if it is the first, under the same authority, for 1 to 40 awards of distinct positions and recipients, every milestone of each paying, floors met, bumps at most 100, and the escrow covers them |
| `Acceptance.SelectionMeetsFloors` | contracts/events/src/event_ops.rs:760-764 | whenever a selection of either kind succeeds, every spec is at or above the first floor listed for its position |
| `Invariants.FloorForIsFirst` | contracts/events/src/event_ops.rs:760-764 | the floor that binds a position is the first listed for it, and there is none if and only if none is listed |
| `Acceptance.CancelStartsExactlyWhen` | contracts/events/src/event_ops.rs:426-514 | an active event can be cancelled if and only if its manager, or its owner while none is delegated, asks with a fresh id, no unpaid prize is inside its window, every milestone of every grant award is settled and an owner-only refund is accepted by the token |
| `Claims.PrizeClaimedExactlyWhen` | contracts/events/src/event_ops.rs:904-977 | no stranded prize: claim_prize succeeds if and only if the contract is open, the prize awarded and unpaid, the recipient asks with a fresh id and the token accepts; the escrow, distribution and anchor errors are unreachable |
| `Claims.OpenMilestoneIsReserved` | contracts/events/src/grant.rs:154-189 | every unsettled milestone of every award of an active grant is worth a positive amount that lies within the reservation and the escrow |
| `Claims.MilestoneClaimedExactlyWhen` | contracts/events/src/grant.rs:115-224 | no stranded milestone: a grant claim succeeds if and only if the owner makes it with a fresh id for an unsettled milestone of an award and the token accepts |
| `Claims.MilestoneForfeitedExactlyWhen` | contracts/events/src/grant.rs:266-306 | a forfeit succeeds under exactly those conditions, the token aside |
| `Claims.RefundCollectedExactlyWhen` | contracts/events/src/event_ops.rs:647-665 | a held refund can be collected if and only if its owner asks with a fresh id and the token accepts |
| `Claims.BatchRunsExactlyWhen` | contracts/events/src/event_ops.rs:516-546 | anyone can crank an open cancellation with any non-zero batch size and a fresh id |
| `Claims.FinalizedExactlyWhen` | contracts/events/src/event_ops.rs:605-633 | finalize_cancel succeeds if and only if every contributor slot has been handled and the token accepts the owner's residual |
| `Histories.Lifecycle` | contracts/events/src/grant.rs:191-215 | terms never change; the status only moves active → completed, cancelled or cancelling, and cancelling → cancelled |
| `Histories.CompletedMeansDelivered` | contracts/events/src/event_ops.rs:969-973 | a completed event has no escrow and nothing owed; it has prizes and all are paid, it has grant awards and every recipient got the whole one, or every campaign milestone is released |
| `Histories.CancelledMeansEmpty` | contracts/events/src/event_ops.rs:635-639 | a cancelled event has no escrow, owes no award and is liable for held refunds only |
| `Histories.GrantCancelsOnlySettled` | contracts/events/src/event_ops.rs:447-451 | a grant leaves the active state by cancellation only with every milestone of every award settled |
| `Histories.ConservationWhileOpen` | contracts/events/src/event_ops.rs:348-421 | while active or completed, deposits = fees + payouts + escrow, with no dust |
| `Histories.ConservationThroughCancel` | contracts/events/src/event_ops.rs:562-645 | from start_cancel on, for any batch sizes, refusals and claims, deposits = fees + payouts + refunds + residual + liability + dust, where dust is zero except in the pro-rata branch and there less than one unit per contributor when no product saturates |
| `Paging.SlotFollowsOneShot` | contracts/events/src/event_ops.rs:548-596 | a crank slot hands its contributor the share a single pass over the list would have given and touches nobody else |
| `Paging.PagedCrankIsOneShot` | contracts/events/src/event_ops.rs:516-673 | the paged crank refines a one-shot refund: after any sequence of batches, refusals and claimed refunds, paid plus held is the one-shot share for every handled contributor and nothing for the rest |
| `Paging.FinalizedMeansRefunded` | contracts/events/src/event_ops.rs:605-673 | once cancelled, everyone has got exactly the one-shot share, in hand or held |
| `Paging.PagesJoin` | contracts/events/src/event_ops.rs:543-598 | two batches in a row do what one batch of their joint size does |
| `Paging.PagesFinish` | contracts/events/src/event_ops.rs:543-599 | any sequence of batch sizes gets exactly as far as their total, and to the end once the total covers what is left |
| `Paging.BatchAdvances` | contracts/events/src/event_ops.rs:543-599 | a batch moves the cursor by its size or to the end, so it strictly decreases what is left |
| `Outcomes.CancelBranchIsScan` | contracts/events/src/event_ops.rs:463-507 | the branch taken from the stored total is the one a scan calls for: owner only if nobody else paid in, full refunds if the escrow is at least the scanned total, pro rata otherwise; and it covers every contributor |
| `Inputs.ClippedTotal` | contracts/events/src/event_ops.rs:399-407 | a reachable input past that point: 1.5 · 10^38 contributed, half of it released and contributed again by another account, and the total clips while the list adds up to more |
| `Exactness.TotalMatchesScanExactlyWhen` | contracts/events/src/event_ops.rs:399-407 | a contribution keeps the stored total equal to the scan if and only if the total has room for it or its contributor is the only one |
| `Outcomes.GrantRecordsAgree` | contracts/events/src/grant.rs:84-110 | the progress count is the number of milestone flags, what was paid lies within the settled amount and that within the award, and the reservation is the sum over the roster of award less settled, within the escrow |
| `Settlements.SettledIsPaidPlusForfeited` | contracts/events/src/grant.rs:84-110 | in every history of a grant, for any mix of releases and forfeits, a recipient's settled amount is what it was paid plus the shares its forfeits took, and equally its paid winner rows plus those forfeits |
| `Settlements.HistorySettlesExactly` | contracts/events/src/grant.rs:34-100 | in every history of a grant, however a recipient's releases and forfeits are ordered and interleaved with others', each milestone settles at most once for its floored share unless it is the last, and once all have settled they sum to exactly the award |
| `Settlements.CompletedNeverForfeited` | contracts/events/src/grant.rs:212-214 | a grant that completes never forfeited a milestone |
| `Settlements.GrantRecordsTellTheRun` | contracts/events/src/grant.rs:84-110 | the same over runs of the contract from create_event on: settled = paid + forfeited for every recipient, and no forfeits once completed |
| `Settlements.GrantAwardsSettleExactly` | contracts/events/src/grant.rs:34-100 | over runs from create_event on, once every milestone of a recipient has settled, what it was paid and forfeited make up exactly its award |
| `Walks.PaidRowAdded` | contracts/events/src/grant.rs:201-211 | the row a release appends keeps the paid rows of each recipient equal to what it was paid |
| `Walks.NewGrantWalks` | contracts/events/src/event_ops.rs:186-189 | a grant starts with rows and records in agreement |
| `Walks.RecordsReplaceTheWalk` | contracts/events/src/types.rs:210-215 | in every history of a grant the unpaid winner rows are the roster and each recipient's paid rows total what it was paid |
| `Outcomes.PrizeRecordsAgree` | contracts/events/src/event_ops.rs:744-819 | the reservation is the sum of unpaid rows, the unclaimed count their number, positions are awarded once, and no row is below the first floor listed for its position |
| `Guarantees.RunIsHistory` | contracts/events/src/event_ops.rs:348-977 | any run of the contract is, for each event, a history of allowed steps, so what is proved of histories holds whatever happens to other events |
| `Outcomes.RunsMoveForward` | contracts/events/src/event_ops.rs:426-645 | in every run terms are fixed and statuses only move forward |
| `Outcomes.EveryEventConserves` | contracts/events/src/event_ops.rs:562-645 | every event of every reachable state is conserved with non-negative dust |
| `Outcomes.CancelConserves` | contracts/events/src/event_ops.rs:426-673 | from start_cancel on, in every run, conservation with the dust fixed at the start |
| `Outcomes.CancelRefundsAsOneShot` | contracts/events/src/event_ops.rs:426-673 | from start_cancel on, in every run, contributors handled so far have exactly their one-shot refund, and everyone has once cancelled |
| `Outcomes.RatesAreCapped` | contracts/events/src/admin.rs:138-147 | no reachable rate, of the contract or of an event, exceeds 1,000 bps |
| `Outcomes.CreationTakesBudget` | contracts/events/src/event_ops.rs:127-189 | a created event has the terms asked for; its owner pays exactly the budget into the contract and the fee on top, at the override if there is one and the contract's rate if not, a campaign's owner nothing |
| `Outcomes.PrizePays` | contracts/events/src/event_ops.rs:976-977 | a claimed prize moves exactly the awarded amount from the contract to its recipient and touches no other balance |
| `Outcomes.MilestonePays` | contracts/events/src/grant.rs:224-225 | a released grant milestone moves exactly its share to its recipient and touches no other balance |
| `Outcomes.RefundPays` | contracts/events/src/event_ops.rs:658-665 | a collected refund moves exactly what was held to its contributor |
| `Outcomes.ResidualPays` | contracts/events/src/event_ops.rs:620-633 | finalizing moves exactly the residual to the owner |
| `Outcomes.CampaignReleaseSplits` | contracts/events/src/grant.rs:219-223 | a campaign release takes exactly its gross from the contract; the creator nets gross minus the fee at the override or else the contract's rate, at most a tenth, always positive |
| `Outcomes.ContributionSplits` | contracts/events/src/event_ops.rs:391-397 | a contribution moves exactly its amount into the contract and its fee, at the override or else the contract's rate and none for crowdfunding, from contributor to fee account |
| `Runs.StepKeepsClock` | contracts/events/src/admin.rs:257-280 | no call moves the open-time clock: it is continuous across pause and unpause |
| `Runs.OpenTimeRuns` | contracts/events/src/admin.rs:539-546 | between calls open time advances with ledger time, and stands still while paused |
| `Guarantees.OpenTimeIsUnpausedTime` | contracts/events/src/admin.rs:257-280 | over any run open time grows by exactly the time spent unpaused |
| `Guarantees.ExpiryOnlyGrows` | contracts/events/src/event_ops.rs:813-818 | no step shortens a claim window |
| `Guarantees.CancelLeavesClaimWindow` | contracts/events/src/event_ops.rs:437-446 | if an event is cancelled while a prize is unpaid, more than 7,776,000 seconds (90 days) of open time passed since each selection of its winners |
| `Replay.CallSpends` | contracts/events/src/idempotency.rs:10-19 | a call that succeeds spends a (domain, operation id) key that was fresh, and no other |
| `Access.PausedMeansClosed` | contracts/events/src/admin.rs:548-554 | while the contract is paused every entry point that moves or promises money fails and changes nothing |
| `Access.CallsAreAuthorised` | contracts/events/src/event_ops.rs:95-96 | every successful call was authorised by the account whose operation id it spends, but for cranking and finalizing, which anyone may do; a campaign release needs the validator besides, or the admin while none is set, and administration the admin |
| `Access.PauseStops` | contracts/events/src/admin.rs:257-266 | a pause the admin asks for leaves the contract paused, every entry point that moves or promises money answering Paused, and open time standing still at every later ledger time |
| `Access.UnpauseResumes` | contracts/events/src/admin.rs:268-280 | unpausing leaves it open, and open time goes on with the ledger from where it stood |
| `Access.AdminCan` | contracts/events/src/admin.rs:138-147 | pausing and unpausing succeed if and only if the admin asks; the rate is set if and only if the admin asks and it is at most 1,000 bps |
| `Replay.NoReplay` | contracts/events/src/idempotency.rs:10-19 | once a call has succeeded no call with its key ever succeeds again |
| `Effects.CreateEventEffect` | contracts/events/src/idempotency.rs:21-33 | a created event gets the next id, the first being deployment sequence · 2^32 + 1, starts active with empty records, a campaign with its one anchor row, its ledger the deposit of budget and fee, and nothing else changes |
| `Effects.AddFundsEffect` | contracts/events/src/event_ops.rs:391-407 | a contribution raises the escrow by exactly its amount; unless the owner made it, it enters under its contributor, listed once and at the end if new, and in the total, both clipped at i128::MAX |
| `Effects.SelectPrizesEffect` | contracts/events/src/event_ops.rs:777-819 | a batch appends exactly its rows, gives each position its award at that row with its bump, reserves exactly its total, and sets the expiry to the later of the old one and open time plus 7,776,000 |
| `Effects.SelectGrantsEffect` | contracts/events/src/event_ops.rs:825-876 | a grant selection writes exactly the awards asked for into the roster, one unpaid row each, and reserves exactly their total |
| `Effects.ClaimPrizeEffect` | contracts/events/src/event_ops.rs:941-977 | a claimed prize takes its row's amount from escrow and reservation, marks that row alone paid at ledger time, and leaves the event completed if and only if the escrow is then empty, active otherwise; its recipient gets exactly that amount |
| `Effects.ClaimMilestoneEffect` | contracts/events/src/grant.rs:154-225 | a released grant milestone is worth its floored share, or all that is left of the award if it is the last; that much leaves escrow and reservation, is flagged, counted and given a row, the recipient gets it, and the event is completed if and only if the escrow is then empty |
| `Effects.ForfeitMilestoneEffect` | contracts/events/src/grant.rs:293-306 | a forfeit flags and counts the milestone, releases what it is worth from the reservation and leaves escrow, rows and balances alone |
| `Effects.CampaignReleaseEffect` | contracts/events/src/grant.rs:169-215 | a campaign release of floor(escrow / open milestones) flags the milestone for the creator, adds its row, splits off the fee at the override or else the contract's rate, and completes the campaign if and only if the escrow is then empty |
| `Effects.CampaignReleaseMoney` | contracts/events/src/grant.rs:219-223 | of that release the creator gets all but the fee, the fee account the fee, and no other balance moves |
| `Effects.StartCancelEffect` | contracts/events/src/event_ops.rs:463-513 | a cancellation of an event with no contributors pays the owner the whole escrow and closes it; any other moves no money and fixes total, escrow, count and branch |
| `Effects.ProcessCancelBatchEffect` | contracts/events/src/event_ops.rs:543-602 | a batch moves the cursor by its size, by 15 if more is asked, or to the end, and answers the list length less the new cursor |
| `Effects.FinalizeCancelEffect` | contracts/events/src/event_ops.rs:614-645 | finalizing empties the event and pays the owner what the escrow had beyond the contributions, if it covered them |
| `Effects.ClaimRefundEffect` | contracts/events/src/event_ops.rs:658-673 | a collected refund is paid in full to its contributor and held no longer |
| `Finality.PrizeIsPaidOnce` | contracts/events/src/event_ops.rs:930-949 | from the claim that pays a prize on, in every run, its award and row stand as written and every further claim of it is refused |
| `Finality.PaidIsRefused` | contracts/events/src/event_ops.rs:930-932 | a claim of a paid prize that meets every earlier check answers PrizeAlreadyClaimed |
| `Finality.MilestoneSettlesOnce` | contracts/events/src/grant.rs:150-152 | from the claim or forfeit that settles a milestone on, in every run, no claim and no forfeit of it for that recipient goes through |
| `TokenIndex.RegisterRefines` | contracts/events/src/storage.rs:247-262 | registering keeps flags, slots and array together if and only if the token is there already or a u32 can count one more |
| `TokenIndex.DeregisterRefines` | contracts/events/src/storage.rs:264-296 | removal by swapping in the last entry leaves no gap, no duplicate and every other token in place |
| `TokenIndex.CountIsSize` | contracts/events/src/storage.rs:227-232 | the stored count is the number of supported tokens |
| `TokenIndex.IndexRefinesSet` | contracts/events/src/storage.rs:247-296 | after any run of changes the flags, slots and dense array hold exactly the set the changes describe, each token once |
| `Registry.IndexFollowsWhitelist` | contracts/events/src/token_whitelist.rs:8-31 | over any run of the contract from a deployment, the index that follows the same calls flags, slots and lists exactly the tokens the contract supports |
| `TokenIndex.Whitelist.AppendToken` | contracts/events/src/storage.rs:247-262 | the in-place append, proved against the index function |
| `TokenIndex.Whitelist.RemoveToken` | contracts/events/src/storage.rs:264-296 | the in-place swap-remove, proved against the index function |
| `TokenIndex.Whitelist.RegisterToken` | contracts/events/src/token_whitelist.rs:8-19 | only the admin registers, flag and index together |
| `TokenIndex.Whitelist.DeregisterToken` | contracts/events/src/token_whitelist.rs:21-31 | only the admin deregisters, flag and index together |
| `Migration.RangeConverts` | contracts/events/src/admin.rs:424-429 | a page converts exactly the old-layout records whose ids lie in it |
| `Migration.RangesJoin` | contracts/events/src/admin.rs:424-429 | two pages in a row convert what one longer page would |
| `Migration.BatchKeeps` | contracts/events/src/admin.rs:410-434 | a page moves the cursor on by 1 to 8 records as asked, by 8 if none or more are asked, or to the end, from one past the base; what remains strictly decreases |
| `Migration.BatchesFinish` | contracts/events/src/admin.rs:410-434 | pages of any sizes get exactly as far as their budgets, and convert every record once these cover what remains |
| `Migration.StampExactlyWhen` | contracts/events/src/admin.rs:360-392 | after pages of any sizes the stamp is accepted if and only if their budgets cover what remained |
| `Migration.MigrationCompletes` | contracts/events/src/admin.rs:360-492 | from an upgrade, with no cursor and any id possibly in the old layout, pages of any sizes whose budgets cover every id issued convert exactly every record, and only then can the migration be stamped |
| `Migration.StampedMeansConverted` | contracts/events/src/admin.rs:376-382 | no record of the old layout is left once the migration is stamped |
| `Migration.MigrationIsHarmless` | contracts/events/src/admin.rs:410-492 | in any run of pages, stamps, new events and upgrades the cursor only rises, every record below it is current, current records never change and old ones change only into their conversion |
| `Migration.ConversionKeepsFields` | contracts/events/src/admin.rs:468-486 | conversion leaves every field but the floors alone and converting twice is converting once |
| `Migration.FloorsAreShares` | contracts/events/src/admin.rs:463-471 | converted floors are exactly the positive shares floor(min(budget · percent, i128::MAX) / 100), at their positions |
| `Migration.FloorsWithinBudget` | contracts/events/src/admin.rs:463-471 | converted floors total at most the budget when the percentages total at most 100 |
| `Migration.Migrator.MigrateOneEvent` | contracts/events/src/admin.rs:447-492 | the conversion of one record, with its loop over the old distribution |
| `Migration.Migrator.MigrateEvents` | contracts/events/src/admin.rs:410-434 | the page loop: admin only, converts the page and reports what remains |
| `Migration.Migrator.Migrate` | contracts/events/src/admin.rs:360-392 | the stamp: admin only, refused while anything remains, once per version |
| `Validation.SplitIsValid` | contracts/events/src/event_ops.rs:75-90 | the checked-add loop accepts a split if and only if it has 1 to 20 positive shares totalling 10,000 |
| `Validation.TotalFloors` | contracts/events/src/event_ops.rs:114-122 | the floor loop's total, or the error of the first offending floor |
| `Validation.FloorsAcceptedExactlyWhen` | contracts/events/src/event_ops.rs:114-122 | floors are totalled if and only if each is positive and their sum fits, and the total is that sum |
| `Validation.PositionsAreDistinct` | contracts/events/src/event_ops.rs:727-740 | the duplicate scan finds a repeated position if and only if there is one |
| `Validation.TotalPrizes` | contracts/events/src/event_ops.rs:752-768 | the validation loop of a prize batch totals it if and only if its positions were never awarded, its amounts are positive and at or above the first floor listed, and the sum fits |
| `Validation.WritePrizes` | contracts/events/src/event_ops.rs:777-804 | the loop appends exactly the batch's rows and gives each position its award at consecutive anchors, others untouched |
| `Validation.TotalGrants` | contracts/events/src/event_ops.rs:825-853 | the validation loop of a grant selection builds exactly the roster asked for, if and only if every milestone of each award pays, nobody is named twice, floors are met and the sum fits |
| `Validation.WriteAwards` | contracts/events/src/event_ops.rs:863-875 | the loop appends exactly one unpaid winner row per award |
| `EventsContract.Contract.TakeWithFee` | contracts/events/src/escrow.rs:13-31 | both transfers of a deposit or neither |
| `EventsContract.Contract.PayOutWithFee` | contracts/events/src/escrow.rs:57-75 | both transfers of a release or neither |
| `EventsContract.Contract.CreateEvent` | contracts/events/src/event_ops.rs:92-236 | create_event refines its function and leaves everything untouched on any error, a late id overflow after the deposit included |
| `EventsContract.Contract.AddFunds` | contracts/events/src/event_ops.rs:348-421 | add_funds refines its function, all or nothing |
| `EventsContract.Contract.StartCancel` | contracts/events/src/event_ops.rs:426-514 | start_cancel refines its function, all or nothing |
| `EventsContract.Contract.RefundNext` | contracts/events/src/event_ops.rs:548-596 | one slot of the crank loop, paying or holding the refund by the token's answer |
| `EventsContract.Contract.RefundBatch` | contracts/events/src/event_ops.rs:543-598 | the crank loop stops at its cap or at the last slot, having handled every slot before it |
| `EventsContract.Contract.ProcessCancelBatch` | contracts/events/src/event_ops.rs:516-603 | process_cancel_batch refines its function and reports the slots left |
| `EventsContract.Contract.FinalizeCancel` | contracts/events/src/event_ops.rs:605-645 | finalize_cancel refines its function, all or nothing |
| `EventsContract.Contract.ClaimRefund` | contracts/events/src/event_ops.rs:647-673 | claim_refund refines its function; a refused transfer restores the held refund and the operation id |
| `EventsContract.Contract.SelectWinners` | contracts/events/src/event_ops.rs:683-899 | select_winners refines its function, all or nothing |
| `EventsContract.Contract.ClaimPrize` | contracts/events/src/event_ops.rs:904-977 | claim_prize refines its function; a refused transfer restores row, reservation, escrow and operation id |
| `EventsContract.Contract.ClaimMilestone` | contracts/events/src/grant.rs:115-226 | claim_milestone refines its function for grants and campaigns, all or nothing |
| `EventsContract.Contract.ForfeitMilestone` | contracts/events/src/grant.rs:266-315 | forfeit_milestone refines its function, all or nothing |
| `EventsContract.Contract.Pause` | contracts/events/src/admin.rs:257-266 | pausing starts the pause clock unless it is already running |
| `EventsContract.Contract.Unpause` | contracts/events/src/admin.rs:268-280 | unpausing adds the pause just ended to the paused total |
| `EventsContract.Contract.SetFeeBps` | contracts/events/src/admin.rs:138-147 | only the admin sets the rate, within the cap |

## Left out

- Titles, content URIs, creation times and deadlines, apart from the title's length check: stored or emitted, they decide no money.
- Event publishing, the profile contract and the hashing of child operation ids: best-effort calls after the payout whose failure is ignored.
- Storage lifetimes: entries are permanent, so the set of spent operation ids never forgets; the contract keeps them in temporary storage.
- Signature checking: a call carries the set of addresses that authorised it.
- The two-step rotations of admin, release validator and event manager, with their expiries and the guard on reclaiming management: their outcome is a call that may install any address at any time, so the theorems hold whatever these rotations allow.
- The profile-contract binding and the timelocked upgrade: a guard or two around an assignment.
- Paged views, the compatibility contract, scripts and transaction resource limits.
- Single storage keys: append-only rows and contributor lists are sequences, and per-address entries are maps.
- Walks.RecordsReplaceTheWalk: assumes the rows of the grant stay within a u32 index, because past it the code overwrites the last row.
- The prize floors are a list in position order with each position at most once, standing for the contract's ordered map; a repeated position in the list would be looked up at its first entry.
- Migration and the lifecycle are separate machines: an event in the old layout takes no lifecycle step.
- Preservation.SelectPrizesKeeps: needs a row index left and room in the unclaimed count; Exactness.SelectKeepsExactlyWhen proves that condition exact.
- Preservation.FundKeeps: needs room in the contribution total, or an only contributor; Exactness.FundKeepsExactlyWhen proves that condition exact.
- Preservation.StepKeepsBook: needs the room of the step's own counters; Exactness.StepKeepsExactlyWhen proves that condition exact.
- Safety.StepKeepsWorld: needs the same room, and that other accounts take no tokens out of the contract.
- Histories.ConservationThroughCancel: bounds the dust of the pro-rata branch by the number of contributors only when no refund product saturates; saturating, refunds are still within the escrow but the dust has no such bound.
- TokenIndex.IndexRefinesSet: assumes at most 2^32 - 1 tokens at any time; TokenIndex.RegisterRefines proves that limit exact for one registration.
- Effects.SelectPrizesEffect: needs a row index left; Exactness.LastRowOverwritten says what happens past the last.
- Effects.ClaimMilestoneEffect: its clause about the new winner row assumes a u32 can index it.
- Effects.CampaignReleaseEffect: its clause about the new winner row assumes a u32 can index it.
- Settlements.SettledIsPaidPlusForfeited: its clause about winner rows assumes a u32 can index them.
- Escrow.FeeBounds: stated for rates within the cap, the only ones reachable (Outcomes.RatesAreCapped).
