/** The contract's whole state beside the token's, and its entry points as functions.
    Each checks what the entry point checks, in its order, and either gives the state it
    leaves behind or the first error; an error leaves everything as it was. */
module World {
  import opened Numeric
  import opened Types
  import opened Escrow
  import opened Milestones
  import opened Refunds
  import opened Books

  datatype World = World(
    bal: Balances,
    books: map<U64, Book>,
    nextId: Option<U64>,
    seen: set<(Address, OpId)>,
    paused: bool,
    pausedAt: Option<U64>,
    pausedSeconds: U64,
    feeBps: U32,
    feeAccount: Address,
    admin: Address,
    validator: Option<Address>,
    supported: set<Address>,
    deploymentSeq: U32)

  // ---- guards --------------------------------------------------------------------------

  /** require_auth; the contract never authorises a call to itself. */
  function RequireAuth(env: Env, who: Address): Outcome {
    Need(who in env.auths && who != SELF, Unauthorized)
  }

  function RequireUnseen(w: World, domain: Address, op: OpId): Outcome {
    Need((domain, op) !in w.seen, OpAlreadySeen)
  }

  function GetBook(w: World, id: U64): Result<Book> {
    if id in w.books then Ok(w.books[id]) else Err(EventNotFound)
  }

  function RequireActive(b: Book): Outcome { Need(b.ev.status.Active?, EventNotActive) }

  function EffectiveFeeBps(w: World, override: Option<U32>): U32 { override.GetOr(w.feeBps) }

  /** Ledger time less every second spent paused so far, a pause still running included. */
  function OpenTime(w: World, now: U64): U64 {
    var paused := if w.pausedAt.Some? then SatAdd64(w.pausedSeconds, SatSub64(now, w.pausedAt.value))
                  else w.pausedSeconds;
    SatSub64(now, paused)
  }

  function IdBase(w: World): U64 { w.deploymentSeq * 0x1_0000_0000 }

  /** The id of the next event and the one after; the base is too small to overflow. */
  function NextEventId(w: World): Result<(U64, U64)> {
    var id := w.nextId.GetOr(IdBase(w) + 1);
    :- Need(id + 1 <= U64_MAX, EventIdOverflow);
    Ok((id, id + 1))
  }

  /** The state after a call that changed one book, moved tokens and spent an op id. */
  function Commit(w: World, id: U64, b: Book, bal: Balances, domain: Address, op: OpId): World {
    w.(books := w.books[id := b], bal := bal, seen := w.seen + {(domain, op)})
  }

  // ---- create_event --------------------------------------------------------------------

  function NewRecord(p: CreateEventParams, id: U64): EventRecord {
    EventRecord(id, p.pillar, p.owner, p.token, p.totalBudget,
                if p.pillar.Crowdfunding? then 0 else p.totalBudget,
                p.releaseKind, Active, p.prizeFloors, p.feeBpsOverride)
  }

  function CheckParams(w: World, p: CreateEventParams): Outcome {
    if p.token !in w.supported then Fail(TokenNotSupported)
    else if p.titleLen > MAX_TITLE_LEN then Fail(TitleTooLong)
    else if p.totalBudget <= 0 then Fail(InvalidBudget)
    else if p.prizeFloors == [] then Fail(InvalidDistribution)
    else
      var floors := FloorSum(p.prizeFloors, 0);
      if floors.Err? then Fail(floors.error)
      else if floors.value > p.totalBudget then Fail(DistributionMismatch)
      else if p.feeBpsOverride.Some? && p.feeBpsOverride.value > MAX_FEE_BPS then Fail(InvalidFeeBps)
      else if !ReleaseKindFits(p.pillar, p.releaseKind) then Fail(InvalidReleaseKind)
      else if p.releaseKind.Split? && !ValidSplit(p.releaseKind.shares) then Fail(InvalidMilestoneSplit)
      else Pass
  }

  function CreateEvent(w: World, env: Env, p: CreateEventParams, op: OpId): Result<(World, U64)> {
    if w.paused then Err(Paused) else
    :- RequireAuth(env, p.owner);
    :- RequireUnseen(w, p.owner, op);
    :- CheckParams(w, p);
    OpenEvent(w, env, p, op)
  }

  /** Takes the budget, unless the campaign's supporters will bring it, and opens the event. */
  function OpenEvent(w: World, env: Env, p: CreateEventParams, op: OpId): Result<(World, U64)> {
    var bps := EffectiveFeeBps(w, p.feeBpsOverride);
    var bal :- if p.pillar.Crowdfunding? then Ok(w.bal)
               else DepositWithFee(w.bal, env, p.token, p.owner, w.feeAccount, p.totalBudget, bps);
    var (id, next) :- NextEventId(w);
    var b := NewBook(NewRecord(p, id), ComputeFee(p.totalBudget, bps));
    Ok((Commit(w, id, b, bal, p.owner, op).(nextId := Some(next)), id))
  }

  // ---- add_funds -----------------------------------------------------------------------

  /** The fee taken on top of a contribution: crowdfunding takes its fee on release. */
  function ContributionFee(w: World, ev: EventRecord, amount: I128): I128 {
    if ev.pillar.Crowdfunding? then 0 else ComputeFee(amount, EffectiveFeeBps(w, ev.feeBpsOverride))
  }

  function AddFunds(w: World, env: Env, id: U64, from: Address, amount: I128, op: OpId): Result<World> {
    if w.paused then Err(Paused) else
    :- Need(amount > 0, InvalidContributionAmount);
    :- Need(amount >= MIN_CONTRIBUTION_STROOPS, BelowMinimumContribution);
    var b :- GetBook(w, id);
    :- RequireActive(b);
    :- RequireAuth(env, from);
    :- RequireUnseen(w, from, op);
    var (roll, total) :- Enter(b, from);
    var bal :- if b.ev.pillar.Crowdfunding? then Transfer(w.bal, env, b.ev.token, from, SELF, amount)
               else DepositWithFee(w.bal, env, b.ev.token, from, w.feeAccount, amount,
                                   EffectiveFeeBps(w, b.ev.feeBpsOverride));
    Ok(Commit(w, id, Credit(b, from, roll, total, amount, ContributionFee(w, b.ev, amount)), bal, from, op))
  }

  // ---- cancellation --------------------------------------------------------------------

  function StartCancel(w: World, env: Env, id: U64, op: OpId): Result<World> {
    if w.paused then Err(Paused) else
    var b :- GetBook(w, id);
    :- RequireActive(b);
    :- Need(b.cancel.None?, CancellationAlreadyStarted);
    :- Need(b.ev.releaseKind.Single? && b.prizes.unclaimed > 0 ==>
              OpenTime(w, env.now) > b.prizes.expiry.GetOr(0), WinnersAlreadySelected);
    :- Need(b.ev.pillar.Grant? ==> b.owed <= 0, AwardsOutstanding);
    :- RequireAuth(env, ManagerOf(b));
    :- RequireUnseen(w, ManagerOf(b), op);
    CloseEvent(w, env, id, b, op)
  }

  /** Pays an event nobody else funded back to its owner, or fixes the terms of its refunds. */
  function CloseEvent(w: World, env: Env, id: U64, b: Book, op: OpId): Result<World> {
    var total :- TotalOrInit(b);
    var remaining := b.ev.remainingEscrow;
    var bal :- if BranchFor(remaining, total).OwnerOnly? && remaining > 0
               then Release(w.bal, env, b.ev.token, b.ev.owner, remaining) else Ok(w.bal);
    Ok(Commit(w, id, BeginCancel(b, total), bal, ManagerOf(b), op))
  }

  /** Up to `cap` slots of the crank, each trying its transfer. */
  function CrankSlots(b: Book, bal: Balances, env: Env, cap: nat): (Book, Balances)
    decreases cap
  {
    if cap == 0 || !MoreSlots(b) then (b, bal)
    else
      var refund := NextRefund(b);
      if refund.None? then CrankSlots(CrankSlot(b, true), bal, env, cap - 1)
      else
        var r := Release(bal, env, b.ev.token, refund.value.0, refund.value.1);
        CrankSlots(CrankSlot(b, r.Ok?), if r.Ok? then r.value else bal, env, cap - 1)
  }

  function ProcessCancelBatch(w: World, env: Env, id: U64, maxRefunds: U32, op: OpId): Result<(World, U32)> {
    if w.paused then Err(Paused) else
    :- Need(maxRefunds != 0, InvalidBatchSize);
    :- RequireUnseen(w, SELF, op);
    var b :- GetBook(w, id);
    :- Need(b.ev.status.Cancelling?, CancellationNotStarted);
    :- Need(b.cancel.Some?, CancellationNotStarted);
    var (b', bal) := CrankSlots(b, w.bal, env, Min(maxRefunds, MAX_REFUNDS_PER_BATCH));
    var left: U32 := if b'.cancel.Some? then SatSub32(b'.cancel.value.countAtStart, b'.cancel.value.nextIdx) else 0;
    Ok((Commit(w, id, b', bal, SELF, op), left))
  }

  function FinalizeCancel(w: World, env: Env, id: U64, op: OpId): Result<World> {
    if w.paused then Err(Paused) else
    :- RequireUnseen(w, SELF, op);
    var b :- GetBook(w, id);
    :- Need(b.ev.status.Cancelling?, CancellationNotStarted);
    :- Need(b.cancel.Some?, CancellationNotStarted);
    var st := b.cancel.value;
    :- Need(st.nextIdx >= st.countAtStart, CancellationNotFinished);
    var residual := OwnerResidual(st);
    var bal :- if residual > 0 then Release(w.bal, env, b.ev.token, b.ev.owner, residual) else Ok(w.bal);
    Ok(Commit(w, id, Finalize(b, st), bal, SELF, op))
  }

  function ClaimRefund(w: World, env: Env, id: U64, contributor: Address, op: OpId): Result<World> {
    if w.paused then Err(Paused) else
    var b :- GetBook(w, id);
    :- RequireAuth(env, contributor);
    :- RequireUnseen(w, contributor, op);
    :- Need(HeldOf(b.held, contributor) > 0, NoRefundOwed);
    var bal :- Release(w.bal, env, b.ev.token, contributor, HeldOf(b.held, contributor));
    Ok(Commit(w, id, Collect(b, contributor), bal, contributor, op))
  }

  // ---- select_winners ------------------------------------------------------------------

  function CheckSpecs(b: Book, specs: seq<WinnerSpec>): Outcome {
    if !b.ev.releaseKind.Single? && WinnerCount(b.rows) > 0 then Fail(WinnersAlreadySelected)
    else if specs == [] then Fail(NoSubmissions)
    else if |specs| > (if b.ev.releaseKind.Single? then MAX_AWARDS_PER_SELECT else MAX_GRANT_AWARDS)
      then Fail(InvalidWinnerPosition)
    else if exists i :: 0 <= i < |specs| && specs[i].reputationBump > MAX_REPUTATION_BUMP
      then Fail(ReputationBumpTooLarge)
    else if !DistinctPositions(specs) then Fail(DuplicateWinnerPosition)
    else Pass
  }

  function SelectWinners(w: World, env: Env, id: U64, specs: seq<WinnerSpec>, op: OpId): Result<World> {
    if w.paused then Err(Paused) else
    var b :- GetBook(w, id);
    :- RequireActive(b);
    :- Need(!b.ev.pillar.Crowdfunding?, InvalidPillar);
    :- RequireAuth(env, ManagerOf(b));
    :- RequireUnseen(w, ManagerOf(b), op);
    :- CheckSpecs(b, specs);
    var b' :- if b.ev.releaseKind.Single? then SelectSingle(b, specs, OpenTime(w, env.now))
              else SelectGrant(b, specs);
    Ok(Commit(w, id, b', w.bal, ManagerOf(b), op))
  }

  function SelectSingle(b: Book, specs: seq<WinnerSpec>, now: U64): Result<Book> {
    var total :- ValidatePrizes(b, specs, 0);
    :- Need(I128_MIN <= total + b.owed <= Min(I128_MAX, b.ev.remainingEscrow), InsufficientEscrow);
    AwardPrizes(b, specs, total + b.owed, now)
  }

  function SelectGrant(b: Book, specs: seq<WinnerSpec>): Result<Book> {
    var (roster, total) :- ValidateGrants(b.ev, specs, map[], 0);
    :- Need(I128_MIN <= total + b.owed <= Min(I128_MAX, b.ev.remainingEscrow), InsufficientEscrow);
    Ok(AwardGrants(b, specs, roster, total + b.owed))
  }

  // ---- claim_prize ---------------------------------------------------------------------

  function ClaimPrize(w: World, env: Env, id: U64, position: U32, op: OpId): Result<World> {
    if w.paused then Err(Paused) else
    var b :- GetBook(w, id);
    :- RequireActive(b);
    :- Need(b.ev.releaseKind.Single?, InvalidReleaseKind);
    :- Need(position in b.prizes.awards, InvalidWinnerPosition);
    var award := b.prizes.awards[position];
    :- RequireAuth(env, award.recipient);
    :- RequireUnseen(w, award.recipient, op);
    :- Need(award.anchorIdx < |b.rows|, InvalidWinnerPosition);
    var anchor := b.rows[award.anchorIdx];
    :- Need(anchor.recipient == award.recipient && anchor.position == position, InvalidWinnerPosition);
    :- Need(anchor.paidAt.None?, PrizeAlreadyClaimed);
    :- Need(anchor.amount > 0, InvalidDistribution);
    :- Need(anchor.amount <= b.ev.remainingEscrow, InsufficientEscrow);
    :- Need(0 <= b.owed - anchor.amount, InsufficientEscrow);
    var bal :- Release(w.bal, env, b.ev.token, award.recipient, anchor.amount);
    Ok(Commit(w, id, PayPrize(b, award.anchorIdx, env.now), bal, award.recipient, op))
  }

  // ---- claim_milestone and forfeit_milestone -------------------------------------------

  function ReleaseCosigner(w: World): Address { w.validator.GetOr(w.admin) }

  /** The milestones of a multi-release event, and that this is one of them. */
  function CheckMilestone(b: Book, milestone: U32): Result<U32> {
    var n := b.ev.releaseKind.Milestones();
    :- Need(n.Some? && 0 < n.value <= U32_MAX, InvalidReleaseKind);
    :- Need(milestone < n.value, InvalidMilestone);
    Ok(n.value)
  }

  function ClaimMilestone(w: World, env: Env, id: U64, recipient: Address, milestone: U32,
                          reputationBump: U32, op: OpId): Result<World>
  {
    if w.paused then Err(Paused) else
    :- Need(reputationBump <= MAX_REPUTATION_BUMP, ReputationBumpTooLarge);
    var b :- GetBook(w, id);
    :- RequireActive(b);
    var n :- CheckMilestone(b, milestone);
    :- RequireAuth(env, b.ev.owner);
    :- RequireUnseen(w, b.ev.owner, op);
    if b.ev.pillar.Crowdfunding? then CampaignRelease(w, env, id, b, n, recipient, milestone, op)
    else GrantRelease(w, env, id, b, n, recipient, milestone, op)
  }

  function CampaignRelease(w: World, env: Env, id: U64, b: Book, n: U32, recipient: Address, milestone: U32, op: OpId)
    : Result<World>
  {
    var cosigned := RequireAuth(env, ReleaseCosigner(w));
    :- cosigned;
    :- Need(milestone !in FlagsOf(b.flags, recipient), MilestoneAlreadyClaimed);
    :- Need(recipient == b.ev.owner, NoSubmissions);
    var amount :- CampaignAmount(b, n);
    :- Need(amount > 0, InvalidDistribution);
    :- Need(amount <= b.ev.remainingEscrow, InsufficientEscrow);
    var bps := EffectiveFeeBps(w, b.ev.feeBpsOverride);
    var bal :- ReleaseWithFee(w.bal, env, b.ev.token, recipient, w.feeAccount, amount, bps);
    Ok(Commit(w, id, PayCampaign(b, milestone, amount, ComputeFee(amount, bps), env.now), bal, b.ev.owner, op))
  }

  function GrantRelease(w: World, env: Env, id: U64, b: Book, n: U32, recipient: Address, milestone: U32, op: OpId)
    : Result<World>
  {
    if milestone in FlagsOf(b.flags, recipient) then Err(MilestoneAlreadyClaimed) else
    var s :- StandingOf(b, recipient);
    var amount :- Share(s, b.ev.releaseKind, n, milestone);
    :- Need(amount > 0, InvalidDistribution);
    :- Need(amount <= b.ev.remainingEscrow, InsufficientEscrow);
    var b' :- PayGrant(b, recipient, s.position, milestone, amount, env.now);
    var bal :- Release(w.bal, env, b.ev.token, recipient, amount);
    Ok(Commit(w, id, b', bal, b.ev.owner, op))
  }

  function ForfeitMilestone(w: World, env: Env, id: U64, recipient: Address, milestone: U32, op: OpId): Result<World> {
    if w.paused then Err(Paused) else
    var b :- GetBook(w, id);
    :- RequireActive(b);
    :- Need(b.ev.pillar.Grant?, InvalidPillar);
    var n :- CheckMilestone(b, milestone);
    :- RequireAuth(env, b.ev.owner);
    :- RequireUnseen(w, b.ev.owner, op);
    :- Need(milestone !in FlagsOf(b.flags, recipient), MilestoneAlreadyClaimed);
    var s :- StandingOf(b, recipient);
    var amount :- Share(s, b.ev.releaseKind, n, milestone);
    :- Need(amount > 0, InvalidDistribution);
    var b' :- Forfeit(b, recipient, milestone, amount);
    Ok(Commit(w, id, b', w.bal, b.ev.owner, op))
  }

  // ---- administration ------------------------------------------------------------------

  function Pause(w: World, env: Env): Result<World> {
    var auth := RequireAuth(env, w.admin);
    :- auth;
    Ok(w.(paused := true, pausedAt := if w.pausedAt.None? then Some(env.now) else w.pausedAt))
  }

  function Unpause(w: World, env: Env): Result<World> {
    var auth := RequireAuth(env, w.admin);
    :- auth;
    if w.pausedAt.Some? then
      Ok(w.(paused := false, pausedAt := None,
            pausedSeconds := SatAdd64(w.pausedSeconds, SatSub64(env.now, w.pausedAt.value))))
    else Ok(w.(paused := false))
  }

  function SetFeeBps(w: World, env: Env, bps: U32): Result<World> {
    var auth := RequireAuth(env, w.admin);
    :- auth;
    :- Need(bps <= MAX_FEE_BPS, InvalidFeeBps);
    Ok(w.(feeBps := bps))
  }

  function SetFeeAccount(w: World, env: Env, account: Address): Result<World> {
    var auth := RequireAuth(env, w.admin);
    :- auth;
    Ok(w.(feeAccount := account))
  }

  function RegisterToken(w: World, env: Env, token: Address): Result<World> {
    var auth := RequireAuth(env, w.admin);
    :- auth;
    Ok(w.(supported := w.supported + {token}))
  }

  function DeregisterToken(w: World, env: Env, token: Address): Result<World> {
    var auth := RequireAuth(env, w.admin);
    :- auth;
    Ok(w.(supported := w.supported - {token}))
  }

  /** A fresh deployment. */
  function Deployed(bal: Balances, admin: Address, feeAccount: Address, feeBps: U32,
                    deploymentSeq: U32): Result<World> {
    if feeBps > MAX_FEE_BPS then Err(InvalidFeeBps)
    else Ok(World(bal, map[], None, {}, false, None, 0, feeBps, feeAccount, admin, None, {}, deploymentSeq))
  }
}
