/** What each call leaves behind, told from the call and the state before it alone. */
module Effects {
  import opened Numeric
  import opened Sums
  import opened Types
  import opened Escrow
  import opened Milestones
  import opened Refunds
  import opened Books
  import opened Invariants
  import opened Steps
  import opened Preservation
  import opened Calls
  import opened Backing
  import opened Safety
  import opened Claims
  import opened Validation
  import opened Acceptance
  import opened Paging
  import opened Outcomes
  import W = World

  /** The call changed one event, token balances and the spent ids, and nothing else. */
  ghost predicate Touches(w: W.World, w': W.World, id: U64) {
    && id in w.books && id in w'.books
    && w' == w.(books := w.books[id := w'.books[id]], bal := w'.bal, seen := w'.seen)
  }

  /** The event paid `amount` out, and is completed if and only if nothing is left. */
  ghost predicate PaysOut(ev: EventRecord, ev': EventRecord, amount: int) {
    && ev'.remainingEscrow == ev.remainingEscrow - amount
    && ev'.status == (if ev.remainingEscrow == amount then Completed else Active)
    && ev' == ev.(remainingEscrow := ev'.remainingEscrow, status := ev'.status)
  }

  /** The event's ledger gains a deposit of amount and fee, and the fee passed on if there is one. */
  ghost predicate Deposits(moves: seq<Move>, moves': seq<Move>, from: Address, amount: I128, fee: I128) {
    && fee >= 0 && amount + fee <= I128_MAX
    && moves' == moves + [Deposit(from, amount + fee)] + (if fee > 0 then [Fee(fee)] else [])
  }

  lemma DepositMovesTold(moves: seq<Move>, from: Address, amount: I128, fee: I128)
    requires fee >= 0 && amount >= 0 && amount + fee <= I128_MAX
    ensures Deposits(moves, moves + DepositMoves(from, amount, fee), from, amount, fee)
  {
    var deposited := moves + [Deposit(from, amount + fee)];
    assert deposited + [] == deposited;
  }

  // ---- claim_prize -----------------------------------------------------------------------

  /** The prize of this position is paid from its row, and nothing else of the event changes. */
  ghost predicate PrizePaid(b: Book, b': Book, position: U32, now: U64) {
    && position in b.prizes.awards && b.prizes.awards[position].anchorIdx < |b.rows|
    && var anchor := b.prizes.awards[position].anchorIdx; var row := b.rows[anchor];
    && row.paidAt.None? && row.amount > 0
    && PaysOut(b.ev, b'.ev, row.amount)
    && b'.rows == b.rows[anchor := row.(paidAt := Some(now))]
    && b'.owed == b.owed - row.amount
    && b'.prizes.unclaimed == b.prizes.unclaimed - 1
    && b' == b.(ev := b'.ev, rows := b'.rows, owed := b'.owed, moves := b.moves + [Payout(row.recipient, row.amount)],
                prizes := b.prizes.(unclaimed := b'.prizes.unclaimed))
  }

  lemma UnpaidIsCounted(rows: seq<Winner>, i: nat)
    requires i < |rows| && rows[i].paidAt.None?
    ensures Sum(UnpaidMarks(rows)) > 0
  {
    SumNonNegative(UnpaidMarks(rows));
    assert UnpaidMarks(rows)[i] == 1;
  }

  lemma PrizeStepPays(b: Book, position: U32, now: U64)
    requires PrizeInv(b) && ClaimPrizeOk(b, position)
    ensures PrizePaid(b, ClaimPrizeStep(b, position, now), position, now)
  {
    UnpaidIsCounted(b.rows, b.prizes.awards[position].anchorIdx);
  }

  lemma PrizeTaken(w: W.World, w': W.World, id: U64, position: U32, now: U64)
    requires id in w.books && PrizeInv(w.books[id]) && TakesStep(w, w', id, Op.ClaimPrize(position, now))
    ensures Touches(w, w', id) && PrizePaid(w.books[id], w'.books[id], position, now)
  {
    PrizeStepPays(w.books[id], position, now);
  }

  lemma PrizeBook(w: W.World, id: U64)
    requires BooksInv(w) && id in w.books && w.books[id].ev.releaseKind.Single?
    ensures PrizeInv(w.books[id])
  {
    PrizesHaveRows(w.books[id]);
  }

  lemma GrantBook(w: W.World, id: U64)
    requires BooksInv(w) && id in w.books && w.books[id].ev.pillar.Grant?
    ensures GrantInv(w.books[id])
  {
  }

  lemma CampaignBook(w: W.World, id: U64)
    requires BooksInv(w) && id in w.books && w.books[id].ev.pillar.Crowdfunding?
    ensures CampaignInv(w.books[id])
  {
  }

  /** A claimed prize leaves the escrow by its row's amount, marks that row paid, and
      completes the event exactly when it was the last of the escrow. */
  lemma ClaimPrizeEffect(w: W.World, env: Env, id: U64, position: U32, op: OpId, w': W.World)
    requires WorldInv(w) && W.ClaimPrize(w, env, id, position, op) == Ok(w')
    ensures Touches(w, w', id) && PrizePaid(w.books[id], w'.books[id], position, env.now)
    ensures var b := w.books[id]; var award := b.prizes.awards[position];
            Paid(w.bal, w'.bal, b.ev.token, award.recipient, b.rows[award.anchorIdx].amount)
  {
    PrizePays(w, env, id, position, op);
    ClaimPrizeSteps(w, env, id, position, op);
    PrizeBook(w, id);
    PrizeTaken(w, w', id, position, env.now);
  }

  // ---- claim_milestone and forfeit_milestone, grants -------------------------------------

  /** What a milestone is worth: its floored share of the award, or all that is left of the
      award once every other milestone is settled. */
  ghost function Worth(kind: ReleaseKind, award: int, p: GrantProgress, m: U32): int
    requires GrantKind(kind) && m < kind.Milestones().value
  {
    match kind
    case Multi(n) => if p.settled + 1 == n then award - p.settledAmount else award / n
    case Split(shares) => if p.settled + 1 == |shares| then award - p.settledAmount else award * shares[m] / 10_000
  }

  /** The milestone is settled for `worth`: flagged, counted, and no longer reserved. */
  ghost predicate Settled(b: Book, b': Book, r: Address, m: U32, worth: int) {
    && m !in FlagsOf(b.flags, r) && worth > 0
    && b'.owed == b.owed - worth
    && b'.flags == b.flags[r := FlagsOf(b.flags, r) + {m}]
    && r in b'.progress
    && b'.progress == b.progress[r := b'.progress[r]]
    && b'.progress[r].settled == ProgressOf(b.progress, r).settled + 1
    && b'.progress[r].settledAmount == ProgressOf(b.progress, r).settledAmount + worth
  }

  /** An event whose roster holds the award of r, and m one of its milestones. */
  ghost predicate Awarded(b: Book, r: Address, m: U32) {
    && b.roster.Some? && r in b.roster.value
    && GrantKind(b.ev.releaseKind) && m < b.ev.releaseKind.Milestones().value
  }

  ghost function WorthOf(b: Book, r: Address, m: U32): int
    requires Awarded(b, r, m)
  {
    Worth(b.ev.releaseKind, b.roster.value[r].amount, ProgressOf(b.progress, r), m)
  }

  /** The milestone is paid and gets a row of its own; nothing else of the event changes. */
  ghost predicate MilestonePaid(b: Book, b': Book, r: Address, m: U32, worth: I128, now: U64) {
    && b.roster.Some? && r in b.roster.value
    && PaysOut(b.ev, b'.ev, worth) && Settled(b, b', r, m, worth)
    && (|b.rows| <= U32_MAX ==>
          b'.rows == b.rows + [Winner(r, b.roster.value[r].position, worth, Some(m), Some(now))])
    && b' == b.(ev := b'.ev, owed := b'.owed, rows := b'.rows, flags := b'.flags, progress := b'.progress,
                moves := b.moves + [Payout(r, worth)])
  }

  /** The milestone is forfeited: its reservation is released and the escrow stays. */
  ghost predicate MilestoneForfeited(b: Book, b': Book, r: Address, m: U32, worth: int) {
    && Settled(b, b', r, m, worth)
    && b' == b.(owed := b'.owed, flags := b'.flags, progress := b'.progress)
  }

  lemma FloorIsWorth(kind: ReleaseKind, award: I128, p: GrantProgress, m: U32)
    requires GrantKind(kind) && award >= 0 && m < kind.Milestones().value && p.settled + 1 < kind.Milestones().value
    ensures Floors(kind, award)[m] == Worth(kind, award, p, m)
  {
  }

  lemma ShareIsWorth(kind: ReleaseKind, award: I128, done: set<U32>, p: GrantProgress, position: U32, m: U32)
    requires GrantKind(kind) && EveryMilestonePays(kind, award) && award >= 0
    requires Tracks(kind, award, done, p) && m < kind.Milestones().value <= U32_MAX && m !in done
    ensures Share(Standing(position, award, p.settled, p.settledAmount), kind, kind.Milestones().value, m)
            == Ok(Worth(kind, award, p, m))
    ensures p.settled < kind.Milestones().value && 0 < Worth(kind, award, p, m) <= award - p.settledAmount
  {
    SettleOne(kind, award, done, p, position, m);
    Pigeonhole(done, kind.Milestones().value);
    Pigeonhole(done + {m}, kind.Milestones().value);
    if p.settled + 1 < kind.Milestones().value {
      FloorIsWorth(kind, award, p, m);
    }
  }

  /** What settling a milestone asks for is what the milestone is worth, with room to record it. */
  ghost predicate WorthSettles(b: Book, r: Address, m: U32)
    requires Awarded(b, r, m)
  {
    var p, worth := ProgressOf(b.progress, r), WorthOf(b, r, m);
    && GrantShare(b, r, m) == Ok(worth) && 0 < worth
    && p.settled < U32_MAX && p.settledAmount + worth <= b.roster.value[r].amount && 0 <= p.settledAmount
  }

  lemma GrantShareIsWorth(b: Book, r: Address, m: U32)
    requires GrantInv(b) && SettleOk(b, r, m)
    ensures Awarded(b, r, m) && WorthSettles(b, r, m)
  {
    var award := b.roster.value[r];
    ShareIsWorth(b.ev.releaseKind, award.amount, FlagsOf(b.flags, r), ProgressOf(b.progress, r), award.position, m);
  }

  lemma MilestoneStepPays(b: Book, r: Address, m: U32, now: U64)
    requires ClaimGrantOk(b, r, m) && Awarded(b, r, m) && WorthSettles(b, r, m)
    ensures 0 < WorthOf(b, r, m) <= I128_MAX
    ensures MilestonePaid(b, ClaimGrantStep(b, r, m, now), r, m, WorthOf(b, r, m), now)
  {
  }

  lemma MilestoneStepForfeits(b: Book, r: Address, m: U32)
    requires SettleOk(b, r, m) && Awarded(b, r, m) && WorthSettles(b, r, m)
    ensures MilestoneForfeited(b, ForfeitGrantStep(b, r, m), r, m, WorthOf(b, r, m))
  {
  }

  lemma MilestoneTaken(w: W.World, w': W.World, id: U64, r: Address, m: U32, now: U64)
    requires id in w.books && GrantInv(w.books[id]) && TakesStep(w, w', id, ClaimGrant(r, m, now))
    ensures Touches(w, w', id) && Awarded(w.books[id], r, m) && 0 < WorthOf(w.books[id], r, m) <= I128_MAX
    ensures MilestonePaid(w.books[id], w'.books[id], r, m, WorthOf(w.books[id], r, m), now)
    ensures GrantShare(w.books[id], r, m) == Ok(WorthOf(w.books[id], r, m))
  {
    GrantShareIsWorth(w.books[id], r, m);
    MilestoneStepPays(w.books[id], r, m, now);
  }

  /** A released grant milestone leaves the escrow by what it is worth, is flagged and
      counted, gets a row of its own, and completes the event exactly when it was the last
      of the escrow. */
  lemma ClaimMilestoneEffect(w: W.World, env: Env, id: U64, r: Address, m: U32, bump: U32, op: OpId, w': W.World)
    requires WorldInv(w) && W.ClaimMilestone(w, env, id, r, m, bump, op) == Ok(w')
    requires id in w.books && w.books[id].ev.pillar.Grant?
    ensures Touches(w, w', id) && Awarded(w.books[id], r, m) && 0 < WorthOf(w.books[id], r, m) <= I128_MAX
    ensures MilestonePaid(w.books[id], w'.books[id], r, m, WorthOf(w.books[id], r, m), env.now)
    ensures Paid(w.bal, w'.bal, w.books[id].ev.token, r, WorthOf(w.books[id], r, m))
  {
    GrantTerms(w, id);
    ClaimGrantSteps(w, env, id, r, m, bump, op);
    GrantBook(w, id);
    MilestoneTaken(w, w', id, r, m, env.now);
    MilestonePays(w, env, id, r, m, bump, op);
  }

  lemma MilestoneGivenUp(w: W.World, w': W.World, id: U64, r: Address, m: U32)
    requires id in w.books && GrantInv(w.books[id]) && TakesStep(w, w', id, ForfeitGrant(r, m))
    ensures Touches(w, w', id) && Awarded(w.books[id], r, m)
    ensures MilestoneForfeited(w.books[id], w'.books[id], r, m, WorthOf(w.books[id], r, m))
  {
    GrantShareIsWorth(w.books[id], r, m);
    MilestoneStepForfeits(w.books[id], r, m);
  }

  lemma ForfeitMovesNothing(w: W.World, env: Env, id: U64, r: Address, m: U32, op: OpId)
    requires W.ForfeitMilestone(w, env, id, r, m, op).Ok?
    ensures id in w.books && w.books[id].ev.pillar.Grant? && W.ForfeitMilestone(w, env, id, r, m, op).value.bal == w.bal
  {
  }

  /** A forfeited milestone releases exactly what it is worth from the reservation, moves no
      money and leaves the escrow as it was. */
  lemma ForfeitMilestoneEffect(w: W.World, env: Env, id: U64, r: Address, m: U32, op: OpId, w': W.World)
    requires WorldInv(w) && W.ForfeitMilestone(w, env, id, r, m, op) == Ok(w')
    ensures Touches(w, w', id) && w'.bal == w.bal && Awarded(w.books[id], r, m)
    ensures MilestoneForfeited(w.books[id], w'.books[id], r, m, WorthOf(w.books[id], r, m))
  {
    ForfeitMovesNothing(w, env, id, r, m, op);
    ForfeitMilestoneSteps(w, env, id, r, m, op);
    GrantBook(w, id);
    MilestoneGivenUp(w, w', id, r, m);
  }

  // ---- claim_milestone, campaigns --------------------------------------------------------

  /** The campaign's next release: its escrow over the milestones still open, floored. */
  ghost function Gross(b: Book): int
    requires b.ev.releaseKind.Multi? && b.campaignClaimed < b.ev.releaseKind.n
  {
    b.ev.remainingEscrow / (b.ev.releaseKind.n - b.campaignClaimed)
  }

  /** A milestone of the campaign is released to its creator, who gets a row for it; nothing
      else of the event changes. */
  ghost predicate CampaignPaid(b: Book, b': Book, m: U32, gross: I128, fee: I128, now: U64) {
    && PaysOut(b.ev, b'.ev, gross) && 0 <= fee < gross
    && m !in FlagsOf(b.flags, b.ev.owner) && b'.flags == b.flags[b.ev.owner := FlagsOf(b.flags, b.ev.owner) + {m}]
    && b'.campaignClaimed == b.campaignClaimed + 1
    && (|b.rows| <= U32_MAX ==> b'.rows == b.rows + [Winner(b.ev.owner, 1, gross, Some(m), Some(now))])
    && b'.moves == b.moves + [Payout(b.ev.owner, gross - fee)] + (if fee > 0 then [Fee(fee)] else [])
    && b' == b.(ev := b'.ev, flags := b'.flags, campaignClaimed := b'.campaignClaimed, rows := b'.rows,
                moves := b'.moves)
  }

  lemma GrossIsQuotient(b: Book, m: U32, fee: I128)
    requires CampaignInv(b) && ClaimCampaignOk(b, m, fee)
    ensures b.campaignClaimed < b.ev.releaseKind.n && CampaignAmount(b, b.ev.releaseKind.n).value == Gross(b)
  {
  }

  lemma CampaignStepPays(b: Book, m: U32, gross: I128, fee: I128, now: U64)
    requires ClaimCampaignOk(b, m, fee) && CampaignAmount(b, b.ev.releaseKind.n).value == gross
    requires b.campaignClaimed < U32_MAX
    ensures CampaignPaid(b, ClaimCampaignStep(b, m, fee, now), m, gross, fee, now)
  {
    var released := b.moves + [Payout(b.ev.owner, gross - fee)];
    assert released + [] == released;
  }

  lemma CampaignTaken(w: W.World, w': W.World, id: U64, m: U32, fee: I128, now: U64)
    requires id in w.books && CampaignInv(w.books[id]) && TakesStep(w, w', id, ClaimCampaign(m, fee, now))
    ensures var b := w.books[id];
            && Touches(w, w', id) && b.campaignClaimed < b.ev.releaseKind.n && 0 < Gross(b) <= I128_MAX
            && CampaignPaid(b, w'.books[id], m, Gross(b), fee, now)
  {
    GrossIsQuotient(w.books[id], m, fee);
    CampaignStepPays(w.books[id], m, Gross(w.books[id]), fee, now);
  }

  lemma CampaignOp(b: Book, r: Address, m: U32, bps: U32, now: U64)
    requires b.ev.pillar.Crowdfunding? && b.ev.releaseKind.Multi? && b.campaignClaimed < b.ev.releaseKind.n
    requires CampaignAmount(b, b.ev.releaseKind.n).Ok? && CampaignAmount(b, b.ev.releaseKind.n).value == Gross(b)
    ensures MilestoneOp(b, r, m, bps, now) == ClaimCampaign(m, ComputeFee(Gross(b), bps), now)
  {
  }

  lemma CampaignGross(b: Book)
    requires CampaignInv(b) && b.ev.status.Active? && CampaignAmount(b, b.ev.releaseKind.n).Ok?
    ensures b.campaignClaimed < b.ev.releaseKind.n && CampaignAmount(b, b.ev.releaseKind.n).value == Gross(b)
  {
  }

  lemma CampaignCall(w: W.World, env: Env, id: U64, r: Address, m: U32, bump: U32, op: OpId)
    requires id in w.books && w.books[id].ev.pillar.Crowdfunding? && w.books[id].ev.releaseKind.Multi?
    requires W.ClaimMilestone(w, env, id, r, m, bump, op).Ok?
    ensures var b := w.books[id];
            && b.ev.status.Active? && r == b.ev.owner && CampaignAmount(b, b.ev.releaseKind.n).Ok?
  {
  }

  lemma CampaignMoved(w: W.World, w': W.World, id: U64, r: Address, m: U32, bps: U32, now: U64)
    requires id in w.books && CampaignInv(w.books[id]) && w.books[id].ev.pillar.Crowdfunding?
    requires w.books[id].ev.status.Active? && CampaignAmount(w.books[id], w.books[id].ev.releaseKind.n).Ok?
    requires TakesStep(w, w', id, MilestoneOp(w.books[id], r, m, bps, now))
    ensures var b := w.books[id];
            && Touches(w, w', id) && b.campaignClaimed < b.ev.releaseKind.n && 0 < Gross(b) <= I128_MAX
            && CampaignPaid(b, w'.books[id], m, Gross(b), ComputeFee(Gross(b), bps), now)
  {
    var b := w.books[id];
    CampaignGross(b);
    CampaignOp(b, r, m, bps, now);
    CampaignTaken(w, w', id, m, ComputeFee(Gross(b), bps), now);
  }

  /** A campaign release takes the escrow over the milestones still open, floored, for the
      creator alone, its fee at the campaign's own rate or else the contract's, and completes
      the campaign exactly when it was the last of the escrow. */
  lemma CampaignReleaseEffect(w: W.World, env: Env, id: U64, r: Address, m: U32, bump: U32, op: OpId, w': W.World)
    requires WorldInv(w) && W.ClaimMilestone(w, env, id, r, m, bump, op) == Ok(w')
    requires id in w.books && w.books[id].ev.pillar.Crowdfunding?
    ensures var b := w.books[id];
            && r == b.ev.owner && Touches(w, w', id)
            && b.ev.releaseKind.Multi? && b.campaignClaimed < b.ev.releaseKind.n && 0 < Gross(b) <= I128_MAX
            && (b.ev.feeBpsOverride.Some? ==>
                  CampaignPaid(b, w'.books[id], m, Gross(b), ComputeFee(Gross(b), b.ev.feeBpsOverride.value), env.now))
            && (b.ev.feeBpsOverride.None? ==>
                  CampaignPaid(b, w'.books[id], m, Gross(b), ComputeFee(Gross(b), w.feeBps), env.now))
  {
    CampaignBook(w, id);
    ClaimCampaignSteps(w, env, id, r, m, bump, op);
    CampaignCall(w, env, id, r, m, bump, op);
    CampaignMoved(w, w', id, r, m, W.EffectiveFeeBps(w, w.books[id].ev.feeBpsOverride), env.now);
  }

  lemma CampaignTerms(w: W.World, id: U64)
    requires BooksInv(w) && id in w.books
    ensures TermsInv(w.books[id].ev)
  {
  }

  /** Of that release the creator gets all but the fee, the fee account the fee, and nobody
      else's balance moves. */
  lemma CampaignReleaseMoney(w: W.World, env: Env, id: U64, r: Address, m: U32, bump: U32, op: OpId, w': W.World)
    requires WorldInv(w) && W.ClaimMilestone(w, env, id, r, m, bump, op) == Ok(w')
    requires id in w.books && w.books[id].ev.pillar.Crowdfunding?
    ensures var b := w.books[id];
            && b.ev.releaseKind.Multi? && b.campaignClaimed < b.ev.releaseKind.n && 0 < Gross(b) <= I128_MAX
            && var fee := if b.ev.feeBpsOverride.Some? then ComputeFee(Gross(b), b.ev.feeBpsOverride.value)
                          else ComputeFee(Gross(b), w.feeBps);
            PaidWithFee(w.bal, w'.bal, b.ev.token, b.ev.owner, w.feeAccount, Gross(b), fee)
  {
    CampaignReleaseEffect(w, env, id, r, m, bump, op, w');
    CampaignBook(w, id);
    CampaignTerms(w, id);
    CampaignCall(w, env, id, r, m, bump, op);
    CampaignGross(w.books[id]);
    CampaignReleaseSplits(w, env, id, r, m, bump, op);
  }

  // ---- create_event ----------------------------------------------------------------------

  /** An event nobody has touched yet. */
  ghost predicate Fresh(b: Book) {
    && b.ev.status.Active? && b.manager.None? && b.owed == 0 && b.campaignClaimed == 0
    && b.rows == (if b.ev.pillar.Crowdfunding? then [Winner(b.ev.owner, 1, 0, None, None)] else [])
    && b.prizes == Prizes(map[], 0, None) && b.roster.None? && b.progress == map[] && b.flags == map[]
    && b.roll == Roll([], map[], map[]) && b.nonOwnerTotal == Some(0) && b.cancel.None? && b.held == map[]
  }

  lemma CreatedFresh(w: W.World, env: Env, p: CreateEventParams, op: OpId)
    requires W.CreateEvent(w, env, p, op).Ok?
    ensures var (w', id) := W.CreateEvent(w, env, p, op).value;
            && id == (if w.nextId.Some? then w.nextId.value else w.deploymentSeq * 4_294_967_296 + 1)
            && id in w'.books && Fresh(w'.books[id])
            && w'.books[id].moves ==
               if p.pillar.Crowdfunding? then []
               else DepositMoves(p.owner, p.totalBudget,
                                 ComputeFee(p.totalBudget, W.EffectiveFeeBps(w, p.feeBpsOverride)))
  {
  }

  /** A created event gets the next id, the first of a deployment being one past its
      sequence number shifted by 32 bits, and starts untouched but for the deposit of its
      budget; nothing else changes. */
  lemma CreateEventEffect(w: W.World, env: Env, p: CreateEventParams, op: OpId, w': W.World, id: U64)
    requires BooksInv(w) && W.CreateEvent(w, env, p, op) == Ok((w', id))
    ensures id == if w.nextId.Some? then w.nextId.value else w.deploymentSeq * 4_294_967_296 + 1
    ensures id !in w.books && id in w'.books && id < U64_MAX
    ensures w' == w.(books := w.books[id := w'.books[id]], bal := w'.bal, seen := w'.seen, nextId := Some(id + 1))
    ensures w'.books[id].ev.id == id && Fresh(w'.books[id])
    ensures p.pillar.Crowdfunding? ==> w'.books[id].moves == []
    ensures var fee := if p.feeBpsOverride.Some? then ComputeFee(p.totalBudget, p.feeBpsOverride.value)
                       else ComputeFee(p.totalBudget, w.feeBps);
            !p.pillar.Crowdfunding? ==> Deposits([], w'.books[id].moves, p.owner, p.totalBudget, fee)
  {
    CreateOpens(w, env, p, op);
    CreatedFresh(w, env, p, op);
    if !p.pillar.Crowdfunding? {
      var fee := ComputeFee(p.totalBudget, W.EffectiveFeeBps(w, p.feeBpsOverride));
      CreateTransfer(w, env, p, op);
      DepositMovesTold([], p.owner, p.totalBudget, fee);
      assert [] + DepositMoves(p.owner, p.totalBudget, fee) == w'.books[id].moves;
    }
  }

  // ---- add_funds -------------------------------------------------------------------------

  /** The contribution is on the event's books: in its escrow, and unless it is the owner's,
      under its contributor, listed once, and in the total, both clipped at their width. */
  ghost predicate Contributed(b: Book, b': Book, from: Address, amount: I128, fee: I128) {
    && Deposits(b.moves, b'.moves, from, amount, fee)
    && b'.ev.remainingEscrow == b.ev.remainingEscrow + amount
    && b' == b.(ev := b.ev.(remainingEscrow := b'.ev.remainingEscrow), roll := b'.roll,
                nonOwnerTotal := b'.nonOwnerTotal, moves := b'.moves)
    && if from == b.ev.owner then b'.roll == b.roll && b'.nonOwnerTotal == b.nonOwnerTotal
       else
         && b'.roll.list == (if from in b.roll.list then b.roll.list else b.roll.list + [from])
         && from in b'.roll.amt && b'.roll.amt == b.roll.amt[from := b'.roll.amt[from]]
         && b'.roll.amt[from] == Min(AmountOf(b.roll, from) + amount, I128_MAX)
         && b'.nonOwnerTotal.Some? && b'.nonOwnerTotal.value == Min(Sum(Amounts(b.roll)) + amount, I128_MAX)
  }

  lemma ListedMeansSlotted(r: Roll, owner: Address, a: Address)
    requires RollInv(r, owner)
    ensures a in r.list <==> a in r.slot
  {
    if a in r.list {
      var i :| 0 <= i < |r.list| && r.list[i] == a;
    }
  }

  lemma CreditedRoll(r: Roll, owner: Address, from: Address, amount: I128)
    requires RollInv(r, owner) && forall a :: a in r.slot ==> AmountOf(r, a) > 0
    requires amount > 0 && (|r.list| < U32_MAX || AmountOf(r, from) != 0)
    ensures var r' := Credited(r, from, amount);
            && r'.list == (if from in r.list then r.list else r.list + [from])
            && from in r'.amt && r'.amt == r.amt[from := r'.amt[from]]
            && r'.amt[from] == Min(AmountOf(r, from) + amount, I128_MAX)
  {
    NewContributor(r, owner, from);
    ListedMeansSlotted(r, owner, from);
  }

  lemma FundMoves(b: Book, from: Address, amount: I128, fee: I128)
    requires FundOk(b, from, amount, fee)
    ensures Deposits(b.moves, FundStep(b, from, amount, fee).moves, from, amount, fee)
  {
    DepositMovesTold(b.moves, from, amount, fee);
  }

  lemma ContributionRecorded(b: Book, from: Address, amount: I128, fee: I128)
    requires Contributors(b.roll, b.ev.owner, b.nonOwnerTotal) && FundOk(b, from, amount, fee)
    ensures Contributed(b, FundStep(b, from, amount, fee), from, amount, fee)
  {
    FundMoves(b, from, amount, fee);
    if from != b.ev.owner {
      FundRoll(b, from, amount, fee);
      CreditedRoll(b.roll, b.ev.owner, from, amount);
      TotalBounds(b.roll, b.ev.owner, from);
    }
  }

  lemma ContributionTaken(w: W.World, w': W.World, id: U64, from: Address, amount: I128, fee: I128)
    requires BooksInv(w) && TakesStep(w, w', id, Fund(from, amount, fee))
    ensures Touches(w, w', id) && Contributed(w.books[id], w'.books[id], from, amount, fee)
  {
    assert ActiveInv(w.books[id]);
    ContributionRecorded(w.books[id], from, amount, fee);
  }

  /** A contribution raises the escrow by its amount, and enters under its contributor, at
      the end of the list if it is their first, unless the owner made it. */
  lemma AddFundsEffect(w: W.World, env: Env, id: U64, from: Address, amount: I128, op: OpId, w': W.World)
    requires WorldInv(w) && W.AddFunds(w, env, id, from, amount, op) == Ok(w')
    ensures Touches(w, w', id)
    ensures var b, b' := w.books[id], w'.books[id];
            && (b.ev.pillar.Crowdfunding? ==> Contributed(b, b', from, amount, 0))
            && (!b.ev.pillar.Crowdfunding? && b.ev.feeBpsOverride.Some? ==>
                  Contributed(b, b', from, amount, ComputeFee(amount, b.ev.feeBpsOverride.value)))
            && (!b.ev.pillar.Crowdfunding? && b.ev.feeBpsOverride.None? ==>
                  Contributed(b, b', from, amount, ComputeFee(amount, w.feeBps)))
  {
    AddFundsActs(w, env, id, from, amount, op);
    ContributionTaken(w, w', id, from, amount, W.ContributionFee(w, w.books[id].ev, amount));
  }

  // ---- select_winners --------------------------------------------------------------------

  /** The batch's rows follow the rows there are, each position has its award, the escrow is
      reserved by the batch's total, and claims stay open for 90 days of open time at least. */
  ghost predicate PrizesSelected(b: Book, b': Book, specs: seq<WinnerSpec>, now: U64) {
    && b'.rows == b.rows + RowsFor(specs)
    && AwardsFor(b.prizes.awards, specs, |b.rows|, b'.prizes.awards)
    && b'.owed == b.owed + Sum(SpecAmounts(specs))
    && b'.prizes.unclaimed == Min(b.prizes.unclaimed + |specs|, U32_MAX)
    && b'.prizes.expiry.Some?
    && b'.prizes.expiry.value ==
       Max(if b.prizes.expiry.Some? then b.prizes.expiry.value else 0, Min(now + 7_776_000, U64_MAX))
    && b' == b.(rows := b'.rows, owed := b'.owed, prizes := b'.prizes)
  }

  lemma PlacedBook(b: Book, specs: seq<WinnerSpec>)
    requires DistinctPositions(specs) && |b.rows| + |specs| <= U32_MAX + 1 && specs != []
    ensures PlacePrizes(b, specs, |b.rows|).Ok?
    ensures var b' := PlacePrizes(b, specs, |b.rows|).value;
            && b'.rows == b.rows + RowsFor(specs)
            && AwardsFor(b.prizes.awards, specs, |b.rows|, b'.prizes.awards)
            && b' == b.(rows := b'.rows, prizes := b.prizes.(awards := b'.prizes.awards))
  {
    PlacedWithinIndex(b, specs, |b.rows|);
    PlacedRows(b, specs, |b.rows|);
    PlacedAwards(b, specs, |b.rows|);
    PlaceFrame(b, specs, |b.rows|);
  }

  lemma BatchPlaced(b: Book, specs: seq<WinnerSpec>, now: U64)
    requires PrizeInv(b) && b.owed >= 0 && SelectPrizesOk(b, specs, now) && |b.rows| <= U32_MAX
    ensures PrizesSelected(b, SelectPrizesStep(b, specs, now), specs, now)
  {
    SelectedPrizes(b, specs, now);
    var reserved := b.(owed := SatAdd(ValidatePrizes(b, specs, 0).value, b.owed));
    PlacedBook(reserved, specs);
    SelectedBook(b, specs, now, reserved, PlacePrizes(reserved, specs, |b.rows|).value);
  }

  lemma BatchTaken(w: W.World, w': W.World, id: U64, specs: seq<WinnerSpec>, now: U64)
    requires id in w.books && PrizeInv(w.books[id]) && w.books[id].owed >= 0 && |w.books[id].rows| <= U32_MAX
    requires TakesStep(w, w', id, SelectPrizes(specs, now))
    ensures Touches(w, w', id) && PrizesSelected(w.books[id], w'.books[id], specs, now)
  {
    BatchPlaced(w.books[id], specs, now);
  }

  lemma OwedNonNegative(w: W.World, id: U64)
    requires BooksInv(w) && id in w.books
    ensures w.books[id].owed >= 0
  {
    assert MoneyInv(w.books[id]);
  }

  /** A batch of prizes writes exactly the rows and awards it asks for, up to the last row a
      u32 can index, reserves exactly their total and keeps the claim window open. */
  lemma SelectPrizesEffect(w: W.World, env: Env, id: U64, specs: seq<WinnerSpec>, op: OpId, w': W.World)
    requires WorldInv(w) && W.SelectWinners(w, env, id, specs, op) == Ok(w')
    requires id in w.books && w.books[id].ev.releaseKind.Single? && |w.books[id].rows| <= U32_MAX
    ensures Touches(w, w', id) && w'.bal == w.bal
    ensures PrizesSelected(w.books[id], w'.books[id], specs, W.OpenTime(w, env.now))
  {
    PrizeBook(w, id);
    OwedNonNegative(w, id);
    SelectSingleSteps(w, env, id, specs, op);
    BatchTaken(w, w', id, specs, W.OpenTime(w, env.now));
  }

  /** The roster is exactly the awards asked for, each with a row, and their total is reserved. */
  ghost predicate GrantsSelected(b: Book, b': Book, specs: seq<WinnerSpec>) {
    && b'.roster.Some? && RosterFor(map[], specs, b'.roster.value)
    && b'.rows == RowsFor(specs)
    && b'.owed == Sum(SpecAmounts(specs))
    && b' == b.(rows := b'.rows, owed := b'.owed, roster := b'.roster)
  }

  lemma AwardsPlaced(b: Book, specs: seq<WinnerSpec>)
    requires GrantInv(b) && SelectGrantsOk(b, specs) && |specs| <= U32_MAX
    ensures GrantsSelected(b, SelectGrantsStep(b, specs), specs)
  {
    GrantsAcceptedExactlyWhen(b.ev, specs, map[], 0);
    RosterIsSpecs(b.ev, specs, map[], 0);
    AppendedRows(b.rows, specs);
    assert [] + RowsFor(specs) == RowsFor(specs);
  }

  lemma AwardsTaken(w: W.World, w': W.World, id: U64, specs: seq<WinnerSpec>)
    requires id in w.books && GrantInv(w.books[id]) && |specs| <= U32_MAX
    requires TakesStep(w, w', id, SelectGrants(specs))
    ensures Touches(w, w', id) && GrantsSelected(w.books[id], w'.books[id], specs)
  {
    AwardsPlaced(w.books[id], specs);
  }

  lemma GrantCall(w: W.World, env: Env, id: U64, specs: seq<WinnerSpec>, op: OpId)
    requires id in w.books && w.books[id].ev.pillar.Grant? && !w.books[id].ev.releaseKind.Single?
    requires W.SelectWinners(w, env, id, specs, op).Ok?
    ensures |specs| <= 40
  {
  }

  lemma GrantTerms(w: W.World, id: U64)
    requires BooksInv(w) && id in w.books && w.books[id].ev.pillar.Grant?
    ensures TermsInv(w.books[id].ev) && !w.books[id].ev.releaseKind.Single?
  {
  }

  /** A grant selection writes exactly the awards it asks for and reserves their total. */
  lemma SelectGrantsEffect(w: W.World, env: Env, id: U64, specs: seq<WinnerSpec>, op: OpId, w': W.World)
    requires WorldInv(w) && W.SelectWinners(w, env, id, specs, op) == Ok(w')
    requires id in w.books && w.books[id].ev.pillar.Grant?
    ensures Touches(w, w', id) && w'.bal == w.bal && GrantsSelected(w.books[id], w'.books[id], specs)
  {
    GrantBook(w, id);
    GrantTerms(w, id);
    GrantCall(w, env, id, specs, op);
    SelectGrantSteps(w, env, id, specs, op);
    AwardsTaken(w, w', id, specs);
  }

  // ---- cancellation ----------------------------------------------------------------------

  /** With nobody else's money in it the event is closed at once; otherwise the terms of the
      refunds are fixed: what came in, what there is, how many to refund, and which way. */
  ghost predicate CancelStarted(b: Book, b': Book) {
    && var total, remaining := Sum(Amounts(b.roll)), b.ev.remainingEscrow;
    && b' == b.(owed := 0, ev := b'.ev, nonOwnerTotal := b'.nonOwnerTotal, cancel := b'.cancel, moves := b'.moves)
    && b'.nonOwnerTotal.Some? && b'.nonOwnerTotal.value == total
    && if b.roll.list == [] then
         && b'.ev == b.ev.(remainingEscrow := 0, status := Cancelled) && b'.cancel.None?
         && b'.moves == b.moves + if remaining > 0 then [Residual(remaining)] else []
       else
         && b'.ev == b.ev.(status := Cancelling) && b'.moves == b.moves && |b.roll.list| <= U32_MAX
         && b'.cancel == Some(CancellationState(
              b'.nonOwnerTotal.value, remaining, |b.roll.list|, 0,
              if remaining >= total then FullPartnerThenResidual else ProRataPartners))
  }

  lemma CancelStepStarts(b: Book)
    requires b.nonOwnerTotal == Some(Sum(Amounts(b.roll))) && |b.roll.list| <= U32_MAX && b.cancel.None?
    requires b.roll.list == [] <==> Sum(Amounts(b.roll)) <= 0
    requires b.roll.list == [] ==> Sum(Amounts(b.roll)) == 0
    ensures CancelStarted(b, StartCancelStep(b))
  {
  }

  lemma ScanIsPositive(r: Roll, owner: Address)
    requires RollInv(r, owner) && forall a :: a in r.slot ==> AmountOf(r, a) > 0
    ensures r.list == [] <==> Sum(Amounts(r)) <= 0
    ensures r.list == [] ==> Sum(Amounts(r)) == 0
  {
    AmountsNonNegative(r, owner);
    SumNonNegative(Amounts(r));
    if r.list != [] {
      assert Amounts(r)[0] > 0;
    }
  }

  lemma CancelTaken(w: W.World, w': W.World, id: U64)
    requires id in w.books && TakesStep(w, w', id, Op.StartCancel)
    requires var b := w.books[id]; b.cancel.None? && Contributors(b.roll, b.ev.owner, b.nonOwnerTotal)
    ensures Touches(w, w', id) && CancelStarted(w.books[id], w'.books[id])
  {
    ScanIsPositive(w.books[id].roll, w.books[id].ev.owner);
    CancelStepStarts(w.books[id]);
  }

  lemma OwnerRefunded(w: W.World, env: Env, id: U64, op: OpId)
    requires W.StartCancel(w, env, id, op).Ok? && id in w.books && w.books[id].nonOwnerTotal.Some?
    ensures var b, bal' := w.books[id], W.StartCancel(w, env, id, op).value.bal;
            if b.nonOwnerTotal.value <= 0 && b.ev.remainingEscrow > 0
            then Release(w.bal, env, b.ev.token, b.ev.owner, b.ev.remainingEscrow) == Ok(bal') else bal' == w.bal
  {
  }

  lemma CancelMoney(w: W.World, env: Env, id: U64, op: OpId)
    requires W.StartCancel(w, env, id, op).Ok? && id in w.books && w.books[id].nonOwnerTotal.Some?
    requires w.books[id].ev.remainingEscrow >= 0
    requires w.books[id].nonOwnerTotal.value <= 0 <==> w.books[id].roll.list == []
    ensures var b := w.books[id];
            Paid(w.bal, W.StartCancel(w, env, id, op).value.bal, b.ev.token, b.ev.owner,
                 if b.roll.list == [] then b.ev.remainingEscrow else 0)
  {
    var b := w.books[id];
    OwnerRefunded(w, env, id, op);
    if b.roll.list == [] && b.ev.remainingEscrow > 0 {
      ReleaseEffect(w.bal, env, b.ev.token, b.ev.owner, b.ev.remainingEscrow);
    }
  }

  lemma ActiveEscrow(w: W.World, id: U64)
    requires BooksInv(w) && id in w.books && w.books[id].ev.status.Active?
    ensures w.books[id].ev.remainingEscrow >= 0 && MoneyInv(w.books[id]) && w.books[id].cancel.None?
    ensures Contributors(w.books[id].roll, w.books[id].ev.owner, w.books[id].nonOwnerTotal)
  {
  }

  /** Starting a cancellation pays the whole escrow back to an owner nobody else paid in
      beside, and otherwise moves no money and fixes the terms of the refunds. */
  lemma StartCancelEffect(w: W.World, env: Env, id: U64, op: OpId, w': W.World)
    requires WorldInv(w) && W.StartCancel(w, env, id, op) == Ok(w')
    ensures Touches(w, w', id) && CancelStarted(w.books[id], w'.books[id])
    ensures var b := w.books[id];
            Paid(w.bal, w'.bal, b.ev.token, b.ev.owner, if b.roll.list == [] then b.ev.remainingEscrow else 0)
  {
    StartCancelSteps(w, env, id, op);
    ActiveEscrow(w, id);
    CancelTaken(w, w', id);
    NobodyElseMeansNoTotal(w.books[id]);
    CancelMoney(w, env, id, op);
  }

  /** Cranking a slot touches nothing but its contributor's amount and refund. */
  lemma {:induction false} CrankFrame(b: Book, accepted: seq<bool>)
    ensures var b' := CrankAll(b, accepted);
            && b'.roll.list == b.roll.list && b'.roll.slot == b.roll.slot
            && b' == b.(roll := b'.roll, cancel := b'.cancel, held := b'.held, moves := b'.moves)
    decreases |accepted|
  {
    if accepted != [] && MoreSlots(b) {
      CrankFrame(CrankSlot(b, accepted[0]), accepted[1..]);
    }
  }

  /** The crank moves on by the size asked for, by 15 if more was asked, or to the end. */
  ghost predicate Advanced(b: Book, b': Book, maxRefunds: U32) {
    && b.cancel.Some? && b'.cancel.Some?
    && b'.cancel.value.nextIdx ==
       Min(|b.roll.list|, b.cancel.value.nextIdx + if maxRefunds <= 15 then maxRefunds else 15)
    && b'.cancel.value == b.cancel.value.(nextIdx := b'.cancel.value.nextIdx)
    && b'.roll.list == b.roll.list && b'.roll.slot == b.roll.slot
    && b' == b.(roll := b'.roll, cancel := b'.cancel, held := b'.held, moves := b'.moves)
  }

  lemma BatchFrame(b: Book, bal: Balances, env: Env, cap: nat)
    ensures var b' := W.CrankSlots(b, bal, env, cap).0;
            && b'.roll.list == b.roll.list && b'.roll.slot == b.roll.slot
            && b' == b.(roll := b'.roll, cancel := b'.cancel, held := b'.held, moves := b'.moves)
  {
    CrankSlotsBook(b, bal, env, cap);
    CrankFrame(b, Answers(b, bal, env, cap));
  }

  lemma BatchBook(b: Book, bal: Balances, env: Env, maxRefunds: U32)
    requires b.cancel.Some? && b.cancel.value.nextIdx <= b.cancel.value.countAtStart == |b.roll.list|
    ensures Advanced(b, W.CrankSlots(b, bal, env, Min(maxRefunds, MAX_REFUNDS_PER_BATCH)).0, maxRefunds)
  {
    BatchAdvances(b, bal, env, Min(maxRefunds, MAX_REFUNDS_PER_BATCH));
    BatchFrame(b, bal, env, Min(maxRefunds, MAX_REFUNDS_PER_BATCH));
  }

  lemma BatchCall(w: W.World, env: Env, id: U64, maxRefunds: U32, op: OpId)
    requires id in w.books && W.ProcessCancelBatch(w, env, id, maxRefunds, op).Ok?
    ensures var (w', left) := W.ProcessCancelBatch(w, env, id, maxRefunds, op).value;
            var b' := W.CrankSlots(w.books[id], w.bal, env, Min(maxRefunds, MAX_REFUNDS_PER_BATCH)).0;
            && Touches(w, w', id) && w.books[id].ev.status.Cancelling? && w'.books[id] == b'
            && (b'.cancel.Some? && b'.cancel.value.nextIdx <= b'.cancel.value.countAtStart ==>
                  left == b'.cancel.value.countAtStart - b'.cancel.value.nextIdx)
  {
  }

  lemma CancellingBook(w: W.World, id: U64)
    requires BooksInv(w) && id in w.books && w.books[id].ev.status.Cancelling?
    ensures w.books[id].cancel.Some? && ValidTerms(w.books[id].cancel.value)
    ensures w.books[id].cancel.value.nextIdx <= w.books[id].cancel.value.countAtStart == |w.books[id].roll.list|
  {
    assert CancellingInv(w.books[id]);
  }

  /** A batch handles as many contributors as it is asked to, 15 at most, and answers how
      many are left. */
  lemma ProcessCancelBatchEffect(w: W.World, env: Env, id: U64, maxRefunds: U32, op: OpId, w': W.World, left: U32)
    requires WorldInv(w) && id in w.books && W.ProcessCancelBatch(w, env, id, maxRefunds, op) == Ok((w', left))
    ensures Touches(w, w', id) && Advanced(w.books[id], w'.books[id], maxRefunds)
    ensures left == |w.books[id].roll.list| - w'.books[id].cancel.value.nextIdx
  {
    BatchCall(w, env, id, maxRefunds, op);
    CancellingBook(w, id);
    BatchBook(w.books[id], w.bal, env, maxRefunds);
  }

  /** What a finished cancellation leaves for the owner: what the escrow had beyond the
      contributions, if it covered them. */
  ghost function Residue(st: CancellationState): int {
    if st.remainingAtStart >= st.nonOwnerTotal then st.remainingAtStart - st.nonOwnerTotal else 0
  }

  /** The cancellation is over, and the residue is the owner's. */
  ghost predicate Finalized(b: Book, b': Book) {
    && b.cancel.Some? && var residue := Residue(b.cancel.value);
    && b'.ev == b.ev.(remainingEscrow := 0, status := Cancelled)
    && (residue == 0 ==> b'.moves == b.moves)
    && (0 < residue <= I128_MAX ==> b'.moves == b.moves + [Residual(residue)])
    && b' == b.(ev := b'.ev, cancel := None, nonOwnerTotal := Some(0), moves := b'.moves)
  }

  lemma ResidueIsOwners(st: CancellationState)
    requires ValidTerms(st)
    ensures OwnerResidual(st) == Residue(st) && 0 <= Residue(st) <= I128_MAX
  {
  }

  lemma FinalizeStepEnds(b: Book)
    requires b.cancel.Some? && ValidTerms(b.cancel.value)
    ensures Finalized(b, FinalizeStep(b))
  {
    ResidueIsOwners(b.cancel.value);
    assert b.moves + [] == b.moves;
  }

  lemma FinalizeTaken(w: W.World, w': W.World, id: U64)
    requires id in w.books && w.books[id].cancel.Some? && ValidTerms(w.books[id].cancel.value)
    requires TakesStep(w, w', id, Op.FinalizeCancel)
    ensures Touches(w, w', id) && Finalized(w.books[id], w'.books[id])
  {
    FinalizeStepEnds(w.books[id]);
  }

  lemma FinalizeCall(w: W.World, env: Env, id: U64, op: OpId)
    requires W.FinalizeCancel(w, env, id, op).Ok?
    ensures id in w.books && w.books[id].ev.status.Cancelling?
  {
  }

  /** Finalizing a cancellation empties the event and pays the owner what the escrow had
      beyond the contributions, if it covered them. */
  lemma FinalizeCancelEffect(w: W.World, env: Env, id: U64, op: OpId, w': W.World)
    requires WorldInv(w) && W.FinalizeCancel(w, env, id, op) == Ok(w')
    ensures Touches(w, w', id) && Finalized(w.books[id], w'.books[id])
    ensures var b := w.books[id]; Paid(w.bal, w'.bal, b.ev.token, b.ev.owner, Residue(b.cancel.value))
  {
    FinalizeCall(w, env, id, op);
    CancellingBook(w, id);
    FinalizeCancelSteps(w, env, id, op);
    FinalizeTaken(w, w', id);
    ResidueIsOwners(w.books[id].cancel.value);
    ResidualPays(w, env, id, op);
  }

  /** A collected refund is paid to its contributor in full, and held no longer. */
  lemma ClaimRefundEffect(w: W.World, env: Env, id: U64, c: Address, op: OpId, w': W.World)
    requires W.ClaimRefund(w, env, id, c, op) == Ok(w')
    ensures Touches(w, w', id) && c in w.books[id].held
    ensures var b, b' := w.books[id], w'.books[id];
            && b' == b.(held := b.held - {c}, moves := b.moves + [Refund(c, b.held[c])])
            && Paid(w.bal, w'.bal, b.ev.token, c, b.held[c])
  {
    RefundPays(w, env, id, c, op);
  }
}
