/** No money is stranded: exactly when each payout of a reachable state goes through. */
module Claims {
  import opened Numeric
  import opened Sums
  import opened Types
  import opened Escrow
  import opened Milestones
  import opened Refunds
  import opened Campaign
  import opened Books
  import opened Audit
  import opened Invariants
  import opened Steps
  import opened Preservation
  import opened Calls
  import opened Backing
  import opened Safety
  import W = World

  /** The token lets the contract pay `to`: nobody is frozen and the recipient has room. */
  predicate Accepts(bal: Balances, env: Env, token: Address, to: Address, amount: int) {
    && SELF !in env.frozen && to !in env.frozen
    && (to != SELF ==> BalanceOf(bal, token, to) + amount < I128_MAX)
  }

  /** A payout within the contract's balance fails only because the token refuses it. */
  lemma ReleaseExactlyWhen(bal: Balances, env: Env, token: Address, to: Address, amount: I128)
    requires 0 <= amount <= BalanceOf(bal, token, SELF)
    ensures Release(bal, env, token, to, amount).Ok? <==> Accepts(bal, env, token, to, amount)
    ensures Release(bal, env, token, to, amount).Err? ==> Release(bal, env, token, to, amount).error == TransferRefused
  {
    TransferEffect(bal, env, token, SELF, to, amount);
  }

  // ---- solvency --------------------------------------------------------------------------

  /** What each event may still have to pay out, of one token. */
  ghost function Liabilities(books: map<U64, Book>, t: Address): map<U64, int> {
    map id | id in books :: if books[id].ev.token == t then Liability(books[id]) else 0
  }

  lemma LiabilityEntry(books: map<U64, Book>, t: Address, id: U64)
    requires id in books && RollInv(books[id].roll, books[id].ev.owner) && MoneyInv(books[id])
    ensures Liabilities(books, t)[id] <= Nets(books, t)[id]
  {
    NetCoversLiability(books[id]);
  }

  lemma LiabilitiesWithinNets(w: W.World, t: Address)
    requires BooksInv(w)
    ensures MapSum(Liabilities(w.books, t)) <= MapSum(Nets(w.books, t))
  {
    forall id | id in w.books
      ensures Liabilities(w.books, t)[id] <= Nets(w.books, t)[id]
    {
      assert BookInv(w.books[id]);
      LiabilityEntry(w.books, t, id);
    }
    MapSumMonotone(Liabilities(w.books, t), Nets(w.books, t));
  }

  /** The contract holds of every token at least what its events may still have to pay out. */
  lemma Solvent(w: W.World, t: Address)
    requires BooksInv(w) && Backed(w)
    ensures MapSum(Liabilities(w.books, t)) <= BalanceOf(w.bal, t, SELF)
  {
    LiabilitiesWithinNets(w, t);
    assert BackedIn(w.books, w.bal, t);
  }

  lemma LiabilityWithinBalance(w: W.World, id: U64)
    requires BooksInv(w) && Backed(w) && id in w.books
    ensures 0 <= Liability(w.books[id]) <= NetOf(w.books[id]) <= BalanceOf(w.bal, w.books[id].ev.token, SELF)
  {
    NetCoversLiability(w.books[id]);
    NetsNonNegative(w);
    assert BackedIn(w.books, w.bal, w.books[id].ev.token);
    NetWithinBalance(w.books, w.bal, id);
  }

  lemma HeldWithinLiability(b: Book, a: Address)
    requires RollInv(b.roll, b.ev.owner) && MoneyInv(b)
    ensures 0 <= HeldOf(b.held, a) <= Liability(b)
  {
    NetCoversLiability(b);
    PendingNonNegative(b);
    MapSumNonNegative(b.held);
    if a in b.held {
      MapSumBounds(b.held, a);
      HeldMeansCancelled(b);
    }
  }

  lemma HeldMeansCancelled(b: Book)
    requires MoneyInv(b) && b.held != map[]
    ensures b.ev.status.Cancelling? || b.ev.status.Cancelled?
  {
  }

  lemma ResidualWithinLiability(b: Book)
    requires RollInv(b.roll, b.ev.owner) && MoneyInv(b) && b.cancel.Some?
    ensures 0 <= OwnerResidual(b.cancel.value) <= Liability(b)
  {
    PendingNonNegative(b);
    MapSumNonNegative(b.held);
  }

  /** What the next slot of the crank may pay is part of the event's liability. */
  lemma ShareWithinLiability(b: Book, c: Address, payout: I128)
    requires RollInv(b.roll, b.ev.owner) && MoneyInv(b) && MoreSlots(b) && NextSlot(b, c, payout)
    ensures payout <= Liability(b)
  {
    var st, xs := b.cancel.value, Amounts(b.roll);
    AmountsNonNegative(b.roll, b.ev.owner);
    forall i | 0 <= i < |xs|
      ensures Shares(st, xs)[i] >= 0
    {
      ShareBounds(st, xs[i]);
    }
    SumNonNegative(Shares(st, xs));
    assert Shares(st, xs)[st.nextIdx] == payout;
    MapSumNonNegative(b.held);
  }

  // ---- claim_prize -----------------------------------------------------------------------

  lemma PrizesHaveRows(b: Book)
    requires BookInv(b) && b.ev.releaseKind.Single?
    ensures PrizeInv(b)
  {
  }

  /** An unpaid prize is a positive amount reserved in the escrow, at the row its award names. */
  lemma UnpaidPrizeIsReserved(b: Book, position: U32)
    requires BookInv(b) && b.ev.status.Active? && b.ev.releaseKind.Single? && position in b.prizes.awards
    ensures PrizeReserved(b, b.prizes.awards[position], position)
  {
    PrizesHaveRows(b);
    var anchor := b.prizes.awards[position].anchorIdx;
    forall i | 0 <= i < |b.rows|
      ensures UnpaidAmounts(b.rows)[i] >= 0
    {
    }
    SumNonNegative(UnpaidAmounts(b.rows));
    assert UnpaidAmounts(b.rows)[anchor] <= b.owed;
  }

  /** The award and its row agree, and an unpaid row is covered by reservation and escrow. */
  ghost predicate PrizeReserved(b: Book, award: PrizeAward, position: U32) {
    && award.anchorIdx < |b.rows|
    && var row := b.rows[award.anchorIdx];
    && row.recipient == award.recipient && row.position == position && row.amount > 0
    && (row.paidAt.None? ==> row.amount <= b.owed <= b.ev.remainingEscrow)
  }

  lemma PrizeGuards(w: W.World, env: Env, id: U64, position: U32, op: OpId)
    requires id in w.books && w.books[id].ev.status.Active? && w.books[id].ev.releaseKind.Single?
    requires var b := w.books[id];
             position in b.prizes.awards ==> PrizeReserved(b, b.prizes.awards[position], position)
    ensures var b := w.books[id];
            W.ClaimPrize(w, env, id, position, op).Ok? <==>
              && !w.paused && position in b.prizes.awards
              && var award := b.prizes.awards[position];
              && award.recipient in env.auths && award.recipient != SELF
              && (award.recipient, op) !in w.seen
              && award.anchorIdx < |b.rows|
              && b.rows[award.anchorIdx].paidAt.None?
              && Release(w.bal, env, b.ev.token, award.recipient, b.rows[award.anchorIdx].amount).Ok?
  {
  }

  /** No stranded prize: claim_prize goes through exactly when the contract is open, the
      prize is awarded and unpaid, its recipient asks for it with a fresh id, and the token
      accepts the payment. */
  lemma PrizeClaimedExactlyWhen(w: W.World, env: Env, id: U64, position: U32, op: OpId)
    requires WorldInv(w) && id in w.books
    requires w.books[id].ev.status.Active? && w.books[id].ev.releaseKind.Single?
    ensures var b := w.books[id];
            W.ClaimPrize(w, env, id, position, op).Ok? <==>
              && !w.paused && position in b.prizes.awards
              && var award := b.prizes.awards[position];
              && award.recipient in env.auths && award.recipient != SELF
              && (award.recipient, op) !in w.seen
              && award.anchorIdx < |b.rows|
              && b.rows[award.anchorIdx].paidAt.None?
              && Accepts(w.bal, env, b.ev.token, award.recipient, b.rows[award.anchorIdx].amount)
  {
    var b := w.books[id];
    if position in b.prizes.awards {
      var award := b.prizes.awards[position];
      UnpaidPrizeIsReserved(b, position);
      if b.rows[award.anchorIdx].paidAt.None? {
        EscrowWithinBalance(w, id);
        ReleaseExactlyWhen(w.bal, env, b.ev.token, award.recipient, b.rows[award.anchorIdx].amount);
      }
    }
    PrizeGuards(w, env, id, position, op);
  }

  // ---- grant milestones ------------------------------------------------------------------

  /** The settlement of this milestone is covered by the reservation and the escrow. */
  ghost predicate Reserved(b: Book, r: Address, m: U32) {
    && b.ev.releaseKind.Milestones().Some? && 0 < b.ev.releaseKind.Milestones().value <= U32_MAX
    && GrantShare(b, r, m).Ok? && 0 < GrantShare(b, r, m).value <= b.owed <= b.ev.remainingEscrow
  }

  lemma OpenShare(b: Book, r: Address, m: U32)
    requires GrantInv(b) && b.roster.Some? && r in b.roster.value
    requires m < b.ev.releaseKind.Milestones().value && m !in FlagsOf(b.flags, r)
    ensures 0 < b.ev.releaseKind.Milestones().value <= U32_MAX
    ensures var s := GrantShare(b, r, m);
            s.Ok? && 0 < s.value <= b.roster.value[r].amount - ProgressOf(b.progress, r).settledAmount
  {
    var award, p := b.roster.value[r], ProgressOf(b.progress, r);
    SettleOne(b.ev.releaseKind, award.amount, FlagsOf(b.flags, r), p, award.position, m);
  }

  /** Every unsettled milestone of every award is worth something, and that is reserved. */
  lemma OpenMilestoneIsReserved(b: Book, r: Address, m: U32)
    requires BookInv(b) && b.ev.status.Active? && b.ev.pillar.Grant?
    requires b.roster.Some? && r in b.roster.value
    requires m < b.ev.releaseKind.Milestones().value && m !in FlagsOf(b.flags, r)
    ensures Reserved(b, r, m)
  {
    assert GrantInv(b);
    OpenShare(b, r, m);
    OutstandingBound(b, r);
    assert b.owed == MapSum(Outstanding(b.roster.value, b.progress));
  }

  lemma OutstandingBound(b: Book, r: Address)
    requires GrantInv(b) && b.roster.Some? && r in b.roster.value
    ensures b.roster.value[r].amount - ProgressOf(b.progress, r).settledAmount
            <= MapSum(Outstanding(b.roster.value, b.progress))
  {
    var o := Outstanding(b.roster.value, b.progress);
    forall a | a in o
      ensures o[a] >= 0
    {
      TracksBounds(b.ev.releaseKind, b.roster.value[a].amount, FlagsOf(b.flags, a), ProgressOf(b.progress, a));
    }
    MapSumBounds(o, r);
  }

  /** What both ways of settling a milestone ask of the call. */
  ghost predicate MaySettle(w: W.World, env: Env, b: Book, r: Address, m: U32, op: OpId) {
    && !w.paused
    && b.ev.owner in env.auths && b.ev.owner != SELF && (b.ev.owner, op) !in w.seen
    && b.roster.Some? && r in b.roster.value
    && b.ev.releaseKind.Milestones().Some? && m < b.ev.releaseKind.Milestones().value
    && m !in FlagsOf(b.flags, r)
  }

  lemma ForfeitGuards(w: W.World, env: Env, id: U64, r: Address, m: U32, op: OpId)
    requires id in w.books && w.books[id].ev.status.Active? && w.books[id].ev.pillar.Grant?
    requires MaySettle(w, env, w.books[id], r, m, op) ==> Reserved(w.books[id], r, m)
    ensures W.ForfeitMilestone(w, env, id, r, m, op).Ok? <==> MaySettle(w, env, w.books[id], r, m, op)
  {
  }

  lemma ClaimGuards(w: W.World, env: Env, id: U64, r: Address, m: U32, bump: U32, op: OpId)
    requires id in w.books && w.books[id].ev.status.Active? && w.books[id].ev.pillar.Grant?
    requires MaySettle(w, env, w.books[id], r, m, op) ==> Reserved(w.books[id], r, m)
    ensures W.ClaimMilestone(w, env, id, r, m, bump, op).Ok? <==>
              && MaySettle(w, env, w.books[id], r, m, op) && bump <= 100
              && Release(w.bal, env, w.books[id].ev.token, r, GrantShare(w.books[id], r, m).GetOr(0)).Ok?
  {
  }

  /** No stranded milestone: a grant claim goes through exactly when the owner makes it,
      with a fresh id, for an unsettled milestone of an award, and the token accepts. */
  lemma MilestoneClaimedExactlyWhen(w: W.World, env: Env, id: U64, r: Address, m: U32, bump: U32, op: OpId)
    requires WorldInv(w) && id in w.books
    requires w.books[id].ev.status.Active? && w.books[id].ev.pillar.Grant?
    ensures var b := w.books[id];
            W.ClaimMilestone(w, env, id, r, m, bump, op).Ok? <==>
              && MaySettle(w, env, b, r, m, op) && bump <= 100
              && Accepts(w.bal, env, b.ev.token, r, GrantShare(b, r, m).GetOr(0))
  {
    var b := w.books[id];
    if MaySettle(w, env, b, r, m, op) {
      OpenMilestoneIsReserved(b, r, m);
      EscrowWithinBalance(w, id);
      ReleaseExactlyWhen(w.bal, env, b.ev.token, r, GrantShare(b, r, m).value);
    }
    ClaimGuards(w, env, id, r, m, bump, op);
  }

  lemma MilestoneForfeitedExactlyWhen(w: W.World, env: Env, id: U64, r: Address, m: U32, op: OpId)
    requires WorldInv(w) && id in w.books
    requires w.books[id].ev.status.Active? && w.books[id].ev.pillar.Grant?
    ensures W.ForfeitMilestone(w, env, id, r, m, op).Ok? <==> MaySettle(w, env, w.books[id], r, m, op)
  {
    if MaySettle(w, env, w.books[id], r, m, op) {
      OpenMilestoneIsReserved(w.books[id], r, m);
    }
    ForfeitGuards(w, env, id, r, m, op);
  }

  // ---- campaigns -------------------------------------------------------------------------

  /** A campaign's next release pays something exactly when the escrow has a unit for every
      open milestone, which it always has, once funded, if there are no more milestones than
      units in the smallest contribution. */
  lemma CampaignReleasePays(b: Book)
    requires BookInv(b) && b.ev.status.Active? && b.ev.pillar.Crowdfunding?
    ensures var n := b.ev.releaseKind.n; var r := CampaignAmount(b, n);
            && b.campaignClaimed < n
            && (r.Ok? && r.value > 0 <==> b.ev.remainingEscrow >= n - b.campaignClaimed)
            && (n <= MIN_CONTRIBUTION_STROOPS && b.ev.remainingEscrow > 0 ==>
                  r.Ok? && 0 < r.value <= b.ev.remainingEscrow)
  {
    ReleasePaysExactlyWhen(b.ev.remainingEscrow, b.ev.releaseKind.n - b.campaignClaimed);
  }

  /** The token lets the contract pay `amount`, its fee to the fee account and the rest to
      `to`: nobody involved is frozen and both have room, together if they are the same. */
  predicate AcceptsWithFee(bal: Balances, env: Env, token: Address, to: Address, feeAccount: Address,
                           amount: int, fee: int)
  {
    && Accepts(bal, env, token, to, amount - fee)
    && (fee > 0 ==>
          && feeAccount !in env.frozen
          && (feeAccount != SELF ==>
                BalanceOf(bal, token, feeAccount) + Part(feeAccount, to, amount - fee) + fee < I128_MAX))
  }

  lemma ReleaseWithFeeExactlyWhen(bal: Balances, env: Env, token: Address, to: Address, feeAccount: Address,
                                  amount: I128, bps: U32)
    requires 0 < amount <= BalanceOf(bal, token, SELF) && bps <= MAX_FEE_BPS && to != SELF
    ensures ReleaseWithFee(bal, env, token, to, feeAccount, amount, bps).Ok? <==>
              AcceptsWithFee(bal, env, token, to, feeAccount, amount, ComputeFee(amount, bps))
  {
    var fee := ComputeFee(amount, bps);
    FeeBounds(amount, bps);
    TransferEffect(bal, env, token, SELF, to, amount - fee);
    var net := Transfer(bal, env, token, SELF, to, amount - fee);
    if net.Ok? && fee > 0 {
      TransferEffect(net.value, env, token, SELF, feeAccount, fee);
    }
  }

  /** What a campaign claim asks of the call, the event's money aside. */
  ghost predicate MayRelease(w: W.World, env: Env, b: Book, recipient: Address, m: U32, bump: U32, op: OpId)
    requires b.ev.releaseKind.Multi?
  {
    && !w.paused && bump <= 100 && m < b.ev.releaseKind.n
    && b.ev.owner in env.auths && b.ev.owner != SELF && (b.ev.owner, op) !in w.seen
    && (w.validator.Some? ==> w.validator.value in env.auths && w.validator.value != SELF)
    && (w.validator.None? ==> w.admin in env.auths && w.admin != SELF)
    && recipient == b.ev.owner && m !in FlagsOf(b.flags, b.ev.owner)
  }

  lemma CampaignGuards(w: W.World, env: Env, id: U64, r: Address, m: U32, bump: U32, op: OpId)
    requires id in w.books && w.books[id].ev.status.Active? && w.books[id].ev.pillar.Crowdfunding?
    requires w.books[id].ev.releaseKind.Multi? && w.books[id].ev.releaseKind.n > 0
    ensures var b := w.books[id]; var gross := CampaignAmount(b, b.ev.releaseKind.n);
            W.ClaimMilestone(w, env, id, r, m, bump, op).Ok? <==>
              && MayRelease(w, env, b, r, m, bump, op)
              && gross.Ok? && 0 < gross.value <= b.ev.remainingEscrow
              && ReleaseWithFee(w.bal, env, b.ev.token, r, w.feeAccount, gross.value,
                                W.EffectiveFeeBps(w, b.ev.feeBpsOverride)).Ok?
  {
  }

  /** No event's rate is above the cap, whether the contract's or its own. */
  lemma RateIsCapped(w: W.World, id: U64)
    requires WorldInv(w) && id in w.books
    ensures w.feeBps <= 1_000
    ensures w.books[id].ev.feeBpsOverride.Some? ==> w.books[id].ev.feeBpsOverride.value <= 1_000
  {
    assert TermsInv(w.books[id].ev);
  }

  lemma CampaignHasMilestones(b: Book)
    requires BookInv(b) && b.ev.pillar.Crowdfunding?
    ensures b.ev.releaseKind.Multi? && b.ev.releaseKind.n > 0
  {
  }

  lemma GrossIsShare(b: Book)
    requires BookInv(b) && b.ev.status.Active? && b.ev.pillar.Crowdfunding?
    ensures var n := b.ev.releaseKind.n; var gross := CampaignAmount(b, n);
            && b.ev.remainingEscrow >= 0 && b.campaignClaimed < n
            && (gross.Ok? && 0 < gross.value <= b.ev.remainingEscrow <==> b.ev.remainingEscrow >= n - b.campaignClaimed)
            && (gross.Ok? ==> gross.value == CampaignShare(b.ev.remainingEscrow, n - b.campaignClaimed))
  {
    ReleasePaysExactlyWhen(b.ev.remainingEscrow, b.ev.releaseKind.n - b.campaignClaimed);
  }

  /** A campaign milestone is released exactly when the contract is open, owner and
      co-signer ask for it with a fresh id, it is an unreleased milestone claimed for the
      owner, the escrow has a unit for every open milestone, and the token accepts both
      payments; the contract's funds never stand in the way. */
  lemma CampaignClaimedExactlyWhen(w: W.World, env: Env, id: U64, r: Address, m: U32, bump: U32, op: OpId)
    requires WorldInv(w) && id in w.books
    requires w.books[id].ev.status.Active? && w.books[id].ev.pillar.Crowdfunding?
    ensures w.books[id].ev.releaseKind.Multi? && w.books[id].campaignClaimed < w.books[id].ev.releaseKind.n
    ensures w.books[id].ev.remainingEscrow >= 0
    ensures var b := w.books[id];
            var open := b.ev.releaseKind.n - b.campaignClaimed; var gross := CampaignShare(b.ev.remainingEscrow, open);
            var rate := if b.ev.feeBpsOverride.Some? then b.ev.feeBpsOverride.value else w.feeBps;
            W.ClaimMilestone(w, env, id, r, m, bump, op).Ok? <==>
              && MayRelease(w, env, b, r, m, bump, op)
              && b.ev.remainingEscrow >= open
              && AcceptsWithFee(w.bal, env, b.ev.token, b.ev.owner, w.feeAccount, gross, ComputeFee(gross, rate))
  {
    var b := w.books[id];
    CampaignHasMilestones(b);
    RateIsCapped(w, id);
    EscrowWithinBalance(w, id);
    GrossIsShare(b);
    CampaignGuards(w, env, id, r, m, bump, op);
    var gross := CampaignShare(b.ev.remainingEscrow, b.ev.releaseKind.n - b.campaignClaimed);
    if b.ev.remainingEscrow >= b.ev.releaseKind.n - b.campaignClaimed && b.ev.owner != SELF {
      ReleaseWithFeeExactlyWhen(w.bal, env, b.ev.token, b.ev.owner, w.feeAccount, gross,
                                W.EffectiveFeeBps(w, b.ev.feeBpsOverride));
    }
  }

  // ---- refunds ---------------------------------------------------------------------------

  lemma CollectGuards(w: W.World, env: Env, id: U64, c: Address, op: OpId)
    requires id in w.books
    ensures var b := w.books[id];
            W.ClaimRefund(w, env, id, c, op).Ok? <==>
              && !w.paused && c in env.auths && c != SELF && (c, op) !in w.seen
              && HeldOf(b.held, c) > 0 && Release(w.bal, env, b.ev.token, c, HeldOf(b.held, c)).Ok?
  {
  }

  lemma HeldWithinBalance(w: W.World, id: U64, c: Address)
    requires WorldInv(w) && id in w.books
    ensures 0 <= HeldOf(w.books[id].held, c) <= BalanceOf(w.bal, w.books[id].ev.token, SELF)
  {
    LiabilityWithinBalance(w, id);
    HeldWithinLiability(w.books[id], c);
  }

  /** A held refund can be collected exactly when its owner asks and the token accepts. */
  lemma RefundCollectedExactlyWhen(w: W.World, env: Env, id: U64, c: Address, op: OpId)
    requires WorldInv(w) && id in w.books
    ensures var b := w.books[id];
            W.ClaimRefund(w, env, id, c, op).Ok? <==>
              && !w.paused && c in env.auths && c != SELF && (c, op) !in w.seen
              && HeldOf(b.held, c) > 0 && Accepts(w.bal, env, b.ev.token, c, HeldOf(b.held, c))
  {
    var b := w.books[id];
    HeldWithinBalance(w, id, c);
    ReleaseExactlyWhen(w.bal, env, b.ev.token, c, HeldOf(b.held, c));
    CollectGuards(w, env, id, c, op);
  }

  lemma BatchGuards(w: W.World, env: Env, id: U64, maxRefunds: U32, op: OpId)
    requires id in w.books
    ensures W.ProcessCancelBatch(w, env, id, maxRefunds, op).Ok? <==>
              && !w.paused && maxRefunds > 0 && (SELF, op) !in w.seen
              && w.books[id].ev.status.Cancelling? && w.books[id].cancel.Some?
  {
  }

  /** Anyone can crank an open cancellation, in batches of any size but none. */
  lemma BatchRunsExactlyWhen(w: W.World, env: Env, id: U64, maxRefunds: U32, op: OpId)
    requires WorldInv(w) && id in w.books
    ensures W.ProcessCancelBatch(w, env, id, maxRefunds, op).Ok? <==>
              !w.paused && maxRefunds > 0 && (SELF, op) !in w.seen && w.books[id].ev.status.Cancelling?
  {
    BatchGuards(w, env, id, maxRefunds, op);
    assert MoneyInv(w.books[id]);
  }

  lemma FinalizeGuards(w: W.World, env: Env, id: U64, op: OpId)
    requires id in w.books
    ensures var b := w.books[id];
            W.FinalizeCancel(w, env, id, op).Ok? <==>
              && !w.paused && (SELF, op) !in w.seen
              && b.ev.status.Cancelling? && b.cancel.Some? && b.cancel.value.nextIdx >= b.cancel.value.countAtStart
              && (OwnerResidual(b.cancel.value) > 0 ==>
                    Release(w.bal, env, b.ev.token, b.ev.owner, OwnerResidual(b.cancel.value)).Ok?)
  {
  }

  lemma ResidualWithinBalance(w: W.World, id: U64)
    requires WorldInv(w) && id in w.books && w.books[id].ev.status.Cancelling?
    ensures var b := w.books[id];
            && b.cancel.Some? && b.cancel.value.nextIdx <= b.cancel.value.countAtStart == |b.roll.list|
            && 0 <= OwnerResidual(b.cancel.value) <= BalanceOf(w.bal, b.ev.token, SELF)
  {
    LiabilityWithinBalance(w, id);
    ResidualWithinLiability(w.books[id]);
  }

  /** Anyone can finalize a cancellation once, and only once, every slot is handled. */
  lemma FinalizedExactlyWhen(w: W.World, env: Env, id: U64, op: OpId)
    requires WorldInv(w) && id in w.books
    ensures var b := w.books[id];
            W.FinalizeCancel(w, env, id, op).Ok? <==>
              && !w.paused && (SELF, op) !in w.seen
              && b.ev.status.Cancelling? && b.cancel.Some? && b.cancel.value.nextIdx == |b.roll.list|
              && (OwnerResidual(b.cancel.value) > 0 ==>
                    Accepts(w.bal, env, b.ev.token, b.ev.owner, OwnerResidual(b.cancel.value)))
  {
    var b := w.books[id];
    FinalizeGuards(w, env, id, op);
    if b.ev.status.Cancelling? {
      ResidualWithinBalance(w, id);
      ReleaseExactlyWhen(w.bal, env, b.ev.token, b.ev.owner, OwnerResidual(b.cancel.value));
    }
  }

  /** Every transfer a batch tries fails only because the token refuses it. */
  ghost predicate NeverShort(b: Book, bal: Balances, env: Env, cap: nat)
    decreases cap
  {
    cap > 0 && MoreSlots(b) ==>
      && (NextRefund(b).Some? ==>
            var (c, payout) := NextRefund(b).value;
            var r := Release(bal, env, b.ev.token, c, payout);
            r.Ok? <==> Accepts(bal, env, b.ev.token, c, payout))
      && NeverShort(CrankSlot(b, Answer(b, bal, env).0), Answer(b, bal, env).1, env, cap - 1)
  }

  lemma NextRefundIsShare(b: Book, c: Address, payout: I128)
    requires MoreSlots(b) && NextSlot(b, c, payout) && NextRefund(b).Some?
    ensures NextRefund(b).value == (c, payout)
  {
  }

  lemma SlotNeverShort(b: Book, bal: Balances, env: Env)
    requires BookInv(b) && b.ev.status.Cancelling? && MoreSlots(b) && NextRefund(b).Some?
    requires NetOf(b) <= BalanceOf(bal, b.ev.token, SELF)
    ensures var (c, payout) := NextRefund(b).value;
            Release(bal, env, b.ev.token, c, payout).Ok? <==> Accepts(bal, env, b.ev.token, c, payout)
  {
    var c, payout := NextSlotExists(b);
    NextRefundIsShare(b, c, payout);
    ShareWithinLiability(b, c, payout);
    NetCoversLiability(b);
    ReleaseExactlyWhen(bal, env, b.ev.token, c, payout);
  }

  lemma AnswerKeepsCover(b: Book, bal: Balances, env: Env)
    requires MoreSlots(b) && NetOf(b) <= BalanceOf(bal, b.ev.token, SELF)
    ensures var (ok, bal') := Answer(b, bal, env);
            NetOf(CrankSlot(b, ok)) <= BalanceOf(bal', b.ev.token, SELF)
  {
    AnswerGains(b, bal, env);
    CrankedSlotNet(b, Answer(b, bal, env).0);
  }

  /** A batch never holds a refund back for lack of contract funds. */
  lemma {:induction false} BatchNeverShort(b: Book, bal: Balances, env: Env, cap: nat)
    requires BookInv(b) && b.ev.status.Cancelling?
    requires NetOf(b) <= BalanceOf(bal, b.ev.token, SELF)
    ensures NeverShort(b, bal, env, cap)
    decreases cap
  {
    if cap > 0 && MoreSlots(b) {
      var (ok, bal') := Answer(b, bal, env);
      if NextRefund(b).Some? {
        SlotNeverShort(b, bal, env);
      }
      AnswerKeepsCover(b, bal, env);
      CrankSlotKeeps(b, ok);
      BatchNeverShort(CrankSlot(b, ok), bal', env, cap - 1);
    }
  }
}
