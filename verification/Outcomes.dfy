/** How the money of an event ends up, in any run. */
module Outcomes {
  import opened Numeric
  import opened Sums
  import opened Types
  import opened Escrow
  import opened Milestones
  import opened Refunds
  import opened Books
  import opened Audit
  import opened Invariants
  import opened Steps
  import opened Safety
  import opened Runs
  import opened Histories
  import opened Paging
  import opened Claims
  import opened Guarantees
  import W = World

  // ---- the O(1) records agree with the walks they replace --------------------------------

  /** The branch a cancellation takes from the stored total is the one a scan of every
      contribution would call for, over every contributor: the owner gets everything back if
      nobody else put anything in, everyone is refunded in full if the escrow covers it, and
      otherwise the escrow is shared out. */
  lemma CancelBranchIsScan(b: Book)
    requires BookInv(b) && StartCancelOk(b)
    ensures var scanned := Sum(Amounts(b.roll)); var b' := StartCancelStep(b);
            if scanned <= 0 then b'.ev.status.Cancelled? && b'.cancel.None? && b'.ev.remainingEscrow == 0
            else
              var branch := if b.ev.remainingEscrow >= scanned then FullPartnerThenResidual else ProRataPartners;
              && b'.ev.status.Cancelling? && b'.ev.remainingEscrow == b.ev.remainingEscrow
              && b'.cancel == Some(CancellationState(scanned, b.ev.remainingEscrow, |b.roll.list|, 0, branch))
  {
  }

  /** A grant's progress record agrees with its flags and its payments: the count is the
      number of settled milestones, and what was paid lies within the settled amount. */
  lemma GrantRecordsAgree(b: Book, a: Address)
    requires BookInv(b) && b.ev.pillar.Grant? && b.roster.Some? && a in b.roster.value
    ensures var p := ProgressOf(b.progress, a);
            && p.settled == |FlagsOf(b.flags, a)|
            && 0 <= PaidTo(b.moves, a) <= p.settledAmount <= b.roster.value[a].amount
    ensures b.ev.status.Active? ==>
              && b.owed == MapSum(Outstanding(b.roster.value, b.progress))
              && b.owed + MapSum(Withheld(b.roster.value, b.progress, b.moves)) <= b.ev.remainingEscrow
  {
    assert GrantInv(b);
    assert RecipientInv(b.ev.releaseKind, b.roster.value[a].amount, FlagsOf(b.flags, a), ProgressOf(b.progress, a),
          PaidTo(b.moves, a));
    TracksBounds(b.ev.releaseKind, b.roster.value[a].amount, FlagsOf(b.flags, a), ProgressOf(b.progress, a));
  }

  /** A single-release event's reservation is the sum of its unpaid rows, within the escrow;
      no position is awarded twice, and none below the first floor listed for it. */
  lemma PrizeRecordsAgree(b: Book)
    requires BookInv(b) && b.ev.status.Active? && b.ev.releaseKind.Single?
    ensures b.owed == Sum(UnpaidAmounts(b.rows)) <= b.ev.remainingEscrow
    ensures b.prizes.unclaimed == Sum(UnpaidMarks(b.rows))
    ensures forall i, j :: 0 <= i < j < |b.rows| ==> b.rows[i].position != b.rows[j].position
    ensures forall i, j :: 0 <= i < |b.rows| && 0 <= j < |b.ev.prizeFloors| ==>
              b.ev.prizeFloors[j].position == b.rows[i].position && FirstAt(b.ev.prizeFloors, j) ==>
              b.rows[i].amount >= b.ev.prizeFloors[j].amount
    ensures forall a :: PaidTo(b.moves, a) == Sum(PaidAmounts(b.rows, a))
  {
    PrizesHaveRows(b);
    forall i, j | 0 <= i < j < |b.rows|
      ensures b.rows[i].position != b.rows[j].position
    {
      assert b.prizes.awards[b.rows[i].position].anchorIdx == i;
      assert b.prizes.awards[b.rows[j].position].anchorIdx == j;
    }
  }

  // ---- over runs -------------------------------------------------------------------------

  /** Every event of every reachable state is conserved, and closed events without a
      pro-rata cancellation hold no dust. */
  lemma EveryEventConserves(w: W.World, now: U64, id: U64)
    requires Reachable(w, now) && id in w.books
    ensures var b := w.books[id];
            && Conserves(b, Dust(b)) && Dust(b) >= 0
            && (b.ev.status.Active? || b.ev.status.Completed? ==> Dust(b) == 0)
            && (b.cancel.Some? && !b.cancel.value.branch.ProRataPartners? ==> Dust(b) == 0)
  {
    ReachableInv(w, now);
    ConservesDust(w.books[id]);
  }

  /** An event's terms never change and its status only moves forward, in every run. */
  lemma RunsMoveForward(w: W.World, start: U64, run: Run, id: U64)
    requires RunInv(w, start) && Lawful(w, start, run) && id in w.books
    ensures id in After(w, run).books
    ensures SameTerms(w.books[id].ev, After(w, run).books[id].ev)
    ensures CanMove(w.books[id].ev.status, After(w, run).books[id].ev.status)
  {
    RunIsHistory(w, start, run, id);
    Lifecycle(w.books[id], OpsOf(w, run, id));
  }

  lemma CancelRuns(w: W.World, env: Env, id: U64, op: OpId)
    requires RunInv(w, env.now) && W.StartCancel(w, env, id, op).Ok?
    ensures var w1 := W.StartCancel(w, env, id, op).value;
            && RunInv(w1, env.now) && id in w.books && id in w1.books
            && StartCancelOk(w.books[id]) && w1.books[id] == StartCancelStep(w.books[id])
  {
    var w1 := W.StartCancel(w, env, id, op).value;
    StartCancelActs(w, env, id, op);
    ActionKeeps(w, w1, id, Op.StartCancel);
    OpenTimeSame(w, w1, env.now);
  }

  /** From start_cancel on, in every run, what came in for the event is what has been paid
      out, what it still owes, and the dust of the pro-rata branch. */
  lemma CancelConserves(w: W.World, env: Env, id: U64, op: OpId, w1: W.World, run: Run, w2: W.World)
    requires RunInv(w, env.now) && id in w.books && W.StartCancel(w, env, id, op) == Ok(w1)
    requires Lawful(w1, env.now, run) && w2 == After(w1, run)
    ensures id in w1.books && id in w2.books
    ensures var dust := Dust(w1.books[id]);
            && Conserves(w2.books[id], dust)
            && (!StartsProRata(w.books[id], Op.StartCancel) ==> dust == 0)
            && (StartsProRata(w.books[id], Op.StartCancel) ==> ProRataDust(w1.books[id]))
  {
    CancelRuns(w, env, id, op);
    RunIsHistory(w1, env.now, run, id);
    ConservationThroughCancel(w.books[id], OpsOf(w1, run, id));
  }

  /** From start_cancel on, in every run, every contributor handled so far has got exactly
      its one-shot refund; and once the event is cancelled that is everyone. */
  lemma CancelRefundsAsOneShot(w: W.World, env: Env, id: U64, op: OpId, w1: W.World, run: Run, w2: W.World)
    requires RunInv(w, env.now) && id in w.books && W.StartCancel(w, env, id, op) == Ok(w1)
    requires id in w1.books && w1.books[id].ev.status.Cancelling?
    requires Lawful(w1, env.now, run) && w2 == After(w1, run)
    ensures id in w2.books && JustBegun(w1.books[id]) && w1.books[id].roll == w.books[id].roll
    ensures FollowsOneShot(w1.books[id], w2.books[id])
    ensures w2.books[id].ev.status.Cancelled? ==>
              forall i :: 0 <= i < |w1.books[id].roll.list| ==>
                RefundOf(w2.books[id], w1.books[id].roll.list[i]) == OneShot(w1.books[id], i)
  {
    CancelRuns(w, env, id, op);
    StartCancelBegins(w.books[id]);
    RunIsHistory(w1, env.now, run, id);
    PagedCrankIsOneShot(w1.books[id], OpsOf(w1, run, id));
    if w2.books[id].ev.status.Cancelled? {
      FinalizedMeansRefunded(w1.books[id], OpsOf(w1, run, id));
    }
  }

  // ---- who gets what ---------------------------------------------------------------------

  /** A claimed prize goes to its recipient, exactly and alone. */
  lemma PrizePays(w: W.World, env: Env, id: U64, position: U32, op: OpId)
    requires W.ClaimPrize(w, env, id, position, op).Ok?
    ensures id in w.books && position in w.books[id].prizes.awards
    ensures var b := w.books[id]; var award := b.prizes.awards[position];
            && award.anchorIdx < |b.rows|
            && Paid(w.bal, W.ClaimPrize(w, env, id, position, op).value.bal, b.ev.token, award.recipient,
                  b.rows[award.anchorIdx].amount)
  {
    var b := w.books[id];
    var award := b.prizes.awards[position];
    ReleaseEffect(w.bal, env, b.ev.token, award.recipient, b.rows[award.anchorIdx].amount);
  }

  /** A released grant milestone goes to its recipient, exactly and alone. */
  lemma MilestonePays(w: W.World, env: Env, id: U64, r: Address, m: U32, bump: U32, op: OpId)
    requires W.ClaimMilestone(w, env, id, r, m, bump, op).Ok? && id in w.books && !w.books[id].ev.pillar.Crowdfunding?
    ensures GrantShare(w.books[id], r, m).Ok?
    ensures Paid(w.bal, W.ClaimMilestone(w, env, id, r, m, bump, op).value.bal, w.books[id].ev.token, r,
                 GrantShare(w.books[id], r, m).value)
  {
    ReleaseEffect(w.bal, env, w.books[id].ev.token, r, GrantShare(w.books[id], r, m).value);
  }

  /** A collected refund goes to its contributor, exactly and alone. */
  lemma RefundPays(w: W.World, env: Env, id: U64, c: Address, op: OpId)
    requires W.ClaimRefund(w, env, id, c, op).Ok?
    ensures id in w.books
    ensures Paid(w.bal, W.ClaimRefund(w, env, id, c, op).value.bal, w.books[id].ev.token, c,
          HeldOf(w.books[id].held, c))
  {
    ReleaseEffect(w.bal, env, w.books[id].ev.token, c, HeldOf(w.books[id].held, c));
  }

  /** What a cancellation leaves for the owner goes to the owner, exactly and alone. */
  lemma ResidualPays(w: W.World, env: Env, id: U64, op: OpId)
    requires W.FinalizeCancel(w, env, id, op).Ok?
    ensures id in w.books && w.books[id].cancel.Some?
    ensures var b := w.books[id];
            Paid(w.bal, W.FinalizeCancel(w, env, id, op).value.bal, b.ev.token, b.ev.owner,
                 Max(0, OwnerResidual(b.cancel.value)))
  {
    var b := w.books[id];
    if OwnerResidual(b.cancel.value) > 0 {
      ReleaseEffect(w.bal, env, b.ev.token, b.ev.owner, OwnerResidual(b.cancel.value));
    }
  }

  lemma CreatedRate(w: W.World, env: Env, p: CreateEventParams, op: OpId)
    requires W.CreateEvent(w, env, p, op).Ok?
    ensures p.feeBpsOverride.Some? ==> p.feeBpsOverride.value <= 1_000
  {
  }

  /** A created event has the terms its owner asked for, and the owner pays exactly its
      budget into the contract and the fee on top of it, at the event's own rate if it was
      given one and the contract's if not; a campaign starts empty. */
  lemma CreationTakesBudget(w: W.World, env: Env, p: CreateEventParams, op: OpId)
    requires W.CreateEvent(w, env, p, op).Ok? && w.feeBps <= 1_000
    ensures var (w', id) := W.CreateEvent(w, env, p, op).value;
            && id in w'.books
            && var ev := w'.books[id].ev;
            && (ev.pillar, ev.owner, ev.token, ev.totalBudget) == (p.pillar, p.owner, p.token, p.totalBudget)
            && (ev.releaseKind, ev.prizeFloors, ev.feeBpsOverride) == (p.releaseKind, p.prizeFloors, p.feeBpsOverride)
            && var taken := if p.pillar.Crowdfunding? then 0 else p.totalBudget;
            var fee := if p.pillar.Crowdfunding? then 0
                       else if p.feeBpsOverride.Some? then ComputeFee(p.totalBudget, p.feeBpsOverride.value)
                       else ComputeFee(p.totalBudget, w.feeBps);
            && ev.remainingEscrow == taken && 0 <= fee <= taken / 10
            && Deposited(w.bal, w'.bal, p.token, p.owner, w.feeAccount, taken, fee)
  {
    CreatedRate(w, env, p, op);
    if !p.pillar.Crowdfunding? {
      FeeBounds(p.totalBudget, W.EffectiveFeeBps(w, p.feeBpsOverride));
      DepositEffect(w.bal, env, p.token, p.owner, w.feeAccount, p.totalBudget, W.EffectiveFeeBps(w, p.feeBpsOverride));
    }
  }

  // ---- fees ------------------------------------------------------------------------------

  /** No reachable rate is above the cap, whether the contract's or an event's own. */
  lemma RatesAreCapped(w: W.World, now: U64, id: U64)
    requires Reachable(w, now)
    ensures w.feeBps <= 1_000
    ensures id in w.books && w.books[id].ev.feeBpsOverride.Some? ==> w.books[id].ev.feeBpsOverride.value <= 1_000
  {
    ReachableInv(w, now);
  }

  /** A campaign release takes exactly its gross amount from the contract; the creator nets
      a positive amount and the fee account gets the rest, the fee at the campaign's own
      rate or else the contract's, at most a tenth. */
  lemma CampaignReleaseSplits(w: W.World, env: Env, id: U64, recipient: Address, m: U32, bump: U32, op: OpId)
    requires id in w.books && w.books[id].ev.pillar.Crowdfunding? && TermsInv(w.books[id].ev)
    requires w.feeBps <= 1_000
    requires W.ClaimMilestone(w, env, id, recipient, m, bump, op).Ok?
    ensures var b := w.books[id]; var gross := CampaignAmount(b, b.ev.releaseKind.n);
            && gross.Ok?
            && var fee := if b.ev.feeBpsOverride.Some? then ComputeFee(gross.value, b.ev.feeBpsOverride.value)
                          else ComputeFee(gross.value, w.feeBps);
            && PaidWithFee(w.bal, W.ClaimMilestone(w, env, id, recipient, m, bump, op).value.bal, b.ev.token,
                           b.ev.owner, w.feeAccount, gross.value, fee)
            && 0 <= fee <= gross.value / 10 && fee < gross.value
  {
    var b := w.books[id];
    var gross, bps := CampaignAmount(b, b.ev.releaseKind.n).value, W.EffectiveFeeBps(w, b.ev.feeBpsOverride);
    FeeBounds(gross, bps);
    ReleaseWithFeeEffect(w.bal, env, b.ev.token, b.ev.owner, w.feeAccount, gross, bps);
  }

  /** A contribution moves exactly its amount into the contract, and a fee on top of it, at
      the event's own rate or else the contract's, from the contributor to the fee account;
      none for a campaign. */
  lemma ContributionSplits(w: W.World, env: Env, id: U64, from: Address, amount: I128, op: OpId)
    requires id in w.books && W.AddFunds(w, env, id, from, amount, op).Ok?
    requires w.feeBps <= 1_000
    requires w.books[id].ev.feeBpsOverride.Some? ==> w.books[id].ev.feeBpsOverride.value <= 1_000
    ensures var b := w.books[id];
            var fee := if b.ev.pillar.Crowdfunding? then 0
                       else if b.ev.feeBpsOverride.Some? then ComputeFee(amount, b.ev.feeBpsOverride.value)
                       else ComputeFee(amount, w.feeBps);
            && Deposited(w.bal, W.AddFunds(w, env, id, from, amount, op).value.bal, b.ev.token, from, w.feeAccount,
                         amount, fee)
            && 0 <= fee <= amount / 10
  {
    var b := w.books[id];
    if b.ev.pillar.Crowdfunding? {
      TransferEffect(w.bal, env, b.ev.token, from, SELF, amount);
    } else {
      FeeBounds(amount, W.EffectiveFeeBps(w, b.ev.feeBpsOverride));
      DepositEffect(w.bal, env, b.ev.token, from, w.feeAccount, amount, W.EffectiveFeeBps(w, b.ev.feeBpsOverride));
    }
  }
}
