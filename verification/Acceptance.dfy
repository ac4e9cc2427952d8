/** Exactly which events, contributions, selections and cancellations the contract accepts. */
module Acceptance {
  import opened Numeric
  import opened Sums
  import opened Types
  import opened Escrow
  import opened Books
  import opened Invariants
  import opened Preservation
  import opened Calls
  import opened Safety
  import opened Validation
  import opened Claims
  import W = World

  // ---- create_event ----------------------------------------------------------------------

  /** Hackathons and bounties pay out at once, campaigns over a positive number of equal
      milestones, grants over either those or 1 to 20 positive shares of 10,000. */
  ghost predicate PaysOutBy(pillar: Pillar, kind: ReleaseKind) {
    match kind
    case Single => pillar.Hackathon? || pillar.Bounty?
    case Multi(n) => (pillar.Grant? || pillar.Crowdfunding?) && n > 0
    case Split(shares) =>
      pillar.Grant? && 1 <= |shares| <= 20 && Sum(shares) == 10_000
      && forall i :: 0 <= i < |shares| ==> shares[i] > 0
  }

  /** The token is supported, the title and the fee override are within their caps, the
      floors are positive and within a positive budget, and the pillar pays out this way. */
  ghost predicate AcceptableParams(w: W.World, p: CreateEventParams) {
    && p.token in w.supported && p.titleLen <= 120 && p.totalBudget > 0
    && p.prizeFloors != []
    && (forall i :: 0 <= i < |p.prizeFloors| ==> p.prizeFloors[i].amount > 0)
    && Sum(FloorAmounts(p.prizeFloors)) <= p.totalBudget
    && (p.feeBpsOverride.Some? ==> p.feeBpsOverride.value <= 1_000)
    && PaysOutBy(p.pillar, p.releaseKind)
  }

  /** Parameters pass exactly when they are acceptable. */
  lemma ParamsAcceptedExactlyWhen(w: W.World, p: CreateEventParams)
    ensures W.CheckParams(w, p) == Pass <==> AcceptableParams(w, p)
  {
    FloorsAcceptedExactlyWhen(p.prizeFloors, 0);
  }

  // ---- money in --------------------------------------------------------------------------

  /** `from` can pay the contract `amount` and the fee on top of it, and the token lets both
      transfers through. */
  predicate CanPay(bal: Balances, env: Env, token: Address, from: Address, feeAccount: Address, amount: int, fee: int) {
    && SELF !in env.frozen && from !in env.frozen
    && amount + fee <= BalanceOf(bal, token, from)
    && BalanceOf(bal, token, SELF) + amount + fee < I128_MAX
    && (fee > 0 ==>
          && feeAccount !in env.frozen
          && (feeAccount != SELF && feeAccount != from ==> BalanceOf(bal, token, feeAccount) + fee < I128_MAX))
  }

  lemma DepositExactlyWhen(bal: Balances, env: Env, token: Address, from: Address, feeAccount: Address,
                           amount: I128, bps: U32)
    requires amount > 0 && from != SELF && bps <= MAX_FEE_BPS
    ensures DepositWithFee(bal, env, token, from, feeAccount, amount, bps).Ok? <==>
              CanPay(bal, env, token, from, feeAccount, amount, ComputeFee(amount, bps))
  {
    var fee := ComputeFee(amount, bps);
    FeeBounds(amount, bps);
    TransferEffect(bal, env, token, from, SELF, SatAdd(amount, fee));
    var taken := Transfer(bal, env, token, from, SELF, SatAdd(amount, fee));
    if taken.Ok? && fee > 0 {
      TransferEffect(taken.value, env, token, SELF, feeAccount, fee);
    }
  }

  lemma TransferInExactlyWhen(bal: Balances, env: Env, token: Address, from: Address, feeAccount: Address, amount: I128)
    requires amount > 0 && from != SELF
    ensures Transfer(bal, env, token, from, SELF, amount).Ok? <==> CanPay(bal, env, token, from, feeAccount, amount, 0)
  {
    TransferEffect(bal, env, token, from, SELF, amount);
  }

  // ---- create_event, the call ------------------------------------------------------------

  lemma CreateGuards(w: W.World, env: Env, p: CreateEventParams, op: OpId)
    ensures W.CreateEvent(w, env, p, op).Ok? <==>
              && !w.paused && p.owner in env.auths && p.owner != SELF && (p.owner, op) !in w.seen
              && W.CheckParams(w, p) == Pass
              && (w.nextId.Some? ==> w.nextId.value < U64_MAX)
              && (p.pillar.Crowdfunding? ||
                  DepositWithFee(w.bal, env, p.token, p.owner, w.feeAccount, p.totalBudget,
                                 W.EffectiveFeeBps(w, p.feeBpsOverride)).Ok?)
  {
  }

  /** An event can be created exactly when the contract is open, its owner asks with a fresh
      id and parameters that pass, an id is left to give it, and the owner can pay the budget
      and the fee at the event's own rate or else the contract's; a campaign pays nothing. */
  lemma EventCreatedExactlyWhen(w: W.World, env: Env, p: CreateEventParams, op: OpId)
    requires w.feeBps <= 1_000
    ensures W.CreateEvent(w, env, p, op).Ok? <==>
              && !w.paused && p.owner in env.auths && p.owner != SELF && (p.owner, op) !in w.seen
              && AcceptableParams(w, p)
              && (w.nextId.Some? ==> w.nextId.value < U64_MAX)
              && (p.pillar.Crowdfunding? ||
                  CanPay(w.bal, env, p.token, p.owner, w.feeAccount, p.totalBudget,
                         if p.feeBpsOverride.Some? then ComputeFee(p.totalBudget, p.feeBpsOverride.value)
                         else ComputeFee(p.totalBudget, w.feeBps)))
  {
    CreateGuards(w, env, p, op);
    ParamsAcceptedExactlyWhen(w, p);
    if AcceptableParams(w, p) && p.owner != SELF {
      DepositExactlyWhen(w.bal, env, p.token, p.owner, w.feeAccount, p.totalBudget,
                         W.EffectiveFeeBps(w, p.feeBpsOverride));
    }
  }

  // ---- add_funds -------------------------------------------------------------------------

  lemma FundGuards(w: W.World, env: Env, id: U64, from: Address, amount: I128, op: OpId)
    requires id in w.books
    ensures var b := w.books[id];
            W.AddFunds(w, env, id, from, amount, op).Ok? <==>
              && !w.paused && amount >= MIN_CONTRIBUTION_STROOPS && b.ev.status.Active?
              && from in env.auths && from != SELF && (from, op) !in w.seen
              && Enter(b, from).Ok?
              && (if b.ev.pillar.Crowdfunding? then Transfer(w.bal, env, b.ev.token, from, SELF, amount).Ok?
                  else DepositWithFee(w.bal, env, b.ev.token, from, w.feeAccount, amount,
                                      W.EffectiveFeeBps(w, b.ev.feeBpsOverride)).Ok?)
  {
  }

  lemma EntersExactlyWhen(b: Book, from: Address)
    requires BookInv(b) && b.ev.status.Active?
    ensures Enter(b, from).Ok? <==> from == b.ev.owner || from in b.roll.slot || |b.roll.list| < U32_MAX
  {
    NewContributor(b.roll, b.ev.owner, from);
  }

  /** A contribution is accepted exactly when the contract is open, it is at least the
      minimum, the event active, the contributor asks with a fresh id, a u32 can number
      another contributor or none is needed, and the contributor can pay. */
  lemma FundsAcceptedExactlyWhen(w: W.World, env: Env, id: U64, from: Address, amount: I128, op: OpId)
    requires WorldInv(w) && id in w.books
    ensures var b := w.books[id];
            W.AddFunds(w, env, id, from, amount, op).Ok? <==>
              && !w.paused && amount >= 100_000_000 && b.ev.status.Active?
              && from in env.auths && from != SELF && (from, op) !in w.seen
              && (from == b.ev.owner || from in b.roll.slot || |b.roll.list| < U32_MAX)
              && CanPay(w.bal, env, b.ev.token, from, w.feeAccount, amount,
                        if b.ev.pillar.Crowdfunding? then 0
                        else if b.ev.feeBpsOverride.Some? then ComputeFee(amount, b.ev.feeBpsOverride.value)
                        else ComputeFee(amount, w.feeBps))
  {
    var b := w.books[id];
    FundGuards(w, env, id, from, amount, op);
    RateIsCapped(w, id);
    if b.ev.status.Active? && amount >= MIN_CONTRIBUTION_STROOPS && from != SELF {
      EntersExactlyWhen(b, from);
      TransferInExactlyWhen(w.bal, env, b.ev.token, from, w.feeAccount, amount);
      DepositExactlyWhen(w.bal, env, b.ev.token, from, w.feeAccount, amount, W.EffectiveFeeBps(w, b.ev.feeBpsOverride));
    }
  }

  // ---- select_winners, single release ----------------------------------------------------

  lemma BatchWithinEscrow(b: Book, specs: seq<WinnerSpec>, now: U64)
    requires 0 <= b.owed <= b.ev.remainingEscrow && specs != []
    ensures W.SelectSingle(b, specs, now).Ok? <==>
              && ValidatePrizes(b, specs, 0).Ok?
              && ValidatePrizes(b, specs, 0).value + b.owed <= b.ev.remainingEscrow
              && WinnerCount(b.rows) + |specs| <= U32_MAX + 1
  {
    var total := ValidatePrizes(b, specs, 0);
    if total.Ok? && total.value + b.owed <= b.ev.remainingEscrow {
      ValidatedPrizes(b, specs, 0);
      PlacedWithinIndex(b.(owed := total.value + b.owed), specs, WinnerCount(b.rows));
    }
  }

  /** A batch of winners is selected exactly when it names positions never awarded before,
      each at or above its floor, the escrow covers them beside every prize still unpaid,
      and a u32 can index their rows: no later batch can promise what an earlier one has. */
  lemma BatchSelectedExactlyWhen(b: Book, specs: seq<WinnerSpec>, now: U64)
    requires BookInv(b) && b.ev.status.Active? && b.ev.releaseKind.Single? && specs != []
    ensures W.SelectSingle(b, specs, now).Ok? <==>
              && Awardable(b.ev.prizeFloors, b.prizes.awards, specs)
              && Sum(SpecAmounts(specs)) + Sum(UnpaidAmounts(b.rows)) <= b.ev.remainingEscrow
              && Min(|b.rows|, U32_MAX) + |specs| <= U32_MAX + 1
  {
    PrizesHaveRows(b);
    assert b.owed == Sum(UnpaidAmounts(b.rows));
    BatchWithinEscrow(b, specs, now);
    PrizesAcceptedExactlyWhen(b, specs, 0);
    if ValidatePrizes(b, specs, 0).Ok? {
      ValidatedPrizes(b, specs, 0);
    }
  }

  // ---- select_winners, grants ------------------------------------------------------------

  /** A grant's awards are selected exactly when every milestone of each would pay, nobody
      is named twice, floors are met, and the escrow covers them all. */
  lemma GrantSelectedExactlyWhen(b: Book, specs: seq<WinnerSpec>)
    requires BookInv(b) && b.ev.status.Active? && b.ev.pillar.Grant? && b.rows == []
    ensures W.SelectGrant(b, specs).Ok? <==>
              Grantable(b.ev, map[], specs) && Sum(SpecAmounts(specs)) <= b.ev.remainingEscrow
  {
    assert GrantInv(b) && b.roster.None? && b.owed == 0;
    GrantsAcceptedExactlyWhen(b.ev, specs, map[], 0);
  }

  // ---- select_winners, the call ----------------------------------------------------------

  /** What a selection asks of the call, the event's money aside: its manager's authority, a
      fresh id, between 1 and `cap` specs of distinct positions, and small reputation bumps. */
  ghost predicate MaySelect(w: W.World, env: Env, b: Book, specs: seq<WinnerSpec>, op: OpId, cap: nat) {
    && !w.paused && b.ev.status.Active?
    && var manager := if b.manager.Some? then b.manager.value else b.ev.owner;
    && manager in env.auths && manager != SELF && (manager, op) !in w.seen
    && 1 <= |specs| <= cap
    && (forall i :: 0 <= i < |specs| ==> specs[i].reputationBump <= 100)
    && (forall i, j :: 0 <= i < j < |specs| ==> specs[i].position != specs[j].position)
  }

  lemma SelectionGuards(w: W.World, env: Env, id: U64, specs: seq<WinnerSpec>, op: OpId)
    requires id in w.books && !w.books[id].ev.pillar.Crowdfunding?
    ensures var b := w.books[id];
            W.SelectWinners(w, env, id, specs, op).Ok? <==>
              if b.ev.releaseKind.Single? then
                MaySelect(w, env, b, specs, op, 20) && W.SelectSingle(b, specs, W.OpenTime(w, env.now)).Ok?
              else MaySelect(w, env, b, specs, op, 40) && b.rows == [] && W.SelectGrant(b, specs).Ok?
  {
  }

  lemma CampaignsSelectNobody(w: W.World, env: Env, id: U64, specs: seq<WinnerSpec>, op: OpId)
    requires id in w.books && w.books[id].ev.pillar.Crowdfunding?
    ensures W.SelectWinners(w, env, id, specs, op).Err?
  {
  }

  /** Prizes are selected exactly when the event's manager asks, with a fresh id, for 1 to 20
      prizes of distinct positions never awarded before, each positive, at or above its floor
      and with a reputation bump up to 100, and the escrow covers them beside every prize
      still unpaid. */
  lemma PrizesSelectedExactlyWhen(w: W.World, env: Env, id: U64, specs: seq<WinnerSpec>, op: OpId)
    requires WorldInv(w) && id in w.books && w.books[id].ev.releaseKind.Single?
    ensures var b := w.books[id];
            W.SelectWinners(w, env, id, specs, op).Ok? <==>
              && MaySelect(w, env, b, specs, op, 20)
              && Awardable(b.ev.prizeFloors, b.prizes.awards, specs)
              && Sum(SpecAmounts(specs)) + Sum(UnpaidAmounts(b.rows)) <= b.ev.remainingEscrow
              && Min(|b.rows|, U32_MAX) + |specs| <= U32_MAX + 1
  {
    var b := w.books[id];
    SinglePillar(w, id);
    SelectionGuards(w, env, id, specs, op);
    if MaySelect(w, env, b, specs, op, 20) {
      BatchSelectedExactlyWhen(b, specs, W.OpenTime(w, env.now));
    }
  }

  /** A grant's awards are selected exactly once: when its manager asks, with a fresh id, for
      1 to 40 awards of distinct positions and recipients, each at or above its floor and
      paying something for every milestone, with reputation bumps up to 100, and the escrow
      covers them all. */
  lemma GrantsSelectedExactlyWhen(w: W.World, env: Env, id: U64, specs: seq<WinnerSpec>, op: OpId)
    requires WorldInv(w) && id in w.books && w.books[id].ev.pillar.Grant?
    ensures var b := w.books[id];
            W.SelectWinners(w, env, id, specs, op).Ok? <==>
              && MaySelect(w, env, b, specs, op, 40) && b.rows == []
              && Grantable(b.ev, map[], specs) && Sum(SpecAmounts(specs)) <= b.ev.remainingEscrow
  {
    var b := w.books[id];
    GrantPillar(w, id);
    SelectionGuards(w, env, id, specs, op);
    if MaySelect(w, env, b, specs, op, 40) && b.rows == [] {
      GrantSelectedExactlyWhen(b, specs);
    }
  }

  lemma SinglePillar(w: W.World, id: U64)
    requires BooksInv(w) && id in w.books && w.books[id].ev.releaseKind.Single?
    ensures BookInv(w.books[id]) && !w.books[id].ev.pillar.Crowdfunding?
  {
  }

  lemma GrantPillar(w: W.World, id: U64)
    requires BooksInv(w) && id in w.books && w.books[id].ev.pillar.Grant?
    ensures BookInv(w.books[id]) && !w.books[id].ev.releaseKind.Single?
  {
  }

  /** No selection goes below a listed minimum: whatever is awarded at a position is at least
      the first floor listed for it. */
  lemma SelectionMeetsFloors(w: W.World, env: Env, id: U64, specs: seq<WinnerSpec>, op: OpId)
    requires WorldInv(w) && id in w.books && W.SelectWinners(w, env, id, specs, op).Ok?
    ensures var floors := w.books[id].ev.prizeFloors;
            forall i, j ::
              0 <= i < |specs| && 0 <= j < |floors| && floors[j].position == specs[i].position && FirstAt(floors, j) ==>
              specs[i].amount >= floors[j].amount
  {
    if w.books[id].ev.releaseKind.Single? {
      PrizesSelectedExactlyWhen(w, env, id, specs, op);
    } else if w.books[id].ev.pillar.Grant? {
      GrantsSelectedExactlyWhen(w, env, id, specs, op);
    } else {
      SelectsByPillar(w, env, id, specs, op);
    }
  }

  lemma SelectsByPillar(w: W.World, env: Env, id: U64, specs: seq<WinnerSpec>, op: OpId)
    requires BooksInv(w) && id in w.books && W.SelectWinners(w, env, id, specs, op).Ok?
    ensures w.books[id].ev.releaseKind.Single? || w.books[id].ev.pillar.Grant?
  {
    if w.books[id].ev.pillar.Crowdfunding? {
      CampaignsSelectNobody(w, env, id, specs, op);
    }
  }

  // ---- start_cancel ----------------------------------------------------------------------

  lemma CancelGuards(w: W.World, env: Env, id: U64, op: OpId)
    requires id in w.books && w.books[id].ev.status.Active?
    requires w.books[id].cancel.None? && w.books[id].nonOwnerTotal.Some?
    ensures var b := w.books[id]; var remaining := b.ev.remainingEscrow;
            W.StartCancel(w, env, id, op).Ok? <==>
              && !w.paused
              && (b.ev.releaseKind.Single? && b.prizes.unclaimed > 0 ==>
                    W.OpenTime(w, env.now) > b.prizes.expiry.GetOr(0))
              && (b.ev.pillar.Grant? ==> b.owed <= 0)
              && var manager := if b.manager.Some? then b.manager.value else b.ev.owner;
              && manager in env.auths && manager != SELF && (manager, op) !in w.seen
              && (b.nonOwnerTotal.value <= 0 && remaining > 0 ==>
                    Release(w.bal, env, b.ev.token, b.ev.owner, remaining).Ok?)
  {
  }

  lemma NothingOwedMeansSettled(b: Book)
    requires BookInv(b) && b.ev.status.Active? && b.ev.pillar.Grant?
    ensures b.owed <= 0 <==> b.roster.None? || FullySettled(b)
  {
    if b.roster.Some? {
      if b.owed <= 0 {
        ClosedGrant(b);
      }
      if FullySettled(b) {
        var o := Outstanding(b.roster.value, b.progress);
        assert forall a :: a in o ==> o[a] == 0;
        MapSumNonNegative(o);
      }
    }
  }

  lemma NobodyElseMeansNoTotal(b: Book)
    requires MoneyInv(b) && b.ev.status.Active?
    ensures b.cancel.None? && b.nonOwnerTotal.Some?
    ensures b.nonOwnerTotal.value <= 0 <==> b.roll.list == []
  {
    var xs := Amounts(b.roll);
    assert b.nonOwnerTotal.value == Sum(xs);
    AmountsNonNegative(b.roll, b.ev.owner);
    SumNonNegative(xs);
    if b.roll.list != [] {
      assert xs[0] > 0;
    }
  }

  /** An event can be cancelled exactly when its manager asks with a fresh id, no unpaid
      prize is still inside its claim window, no grant milestone is unsettled, and, if
      nobody but the owner paid in, the token accepts the owner's refund. */
  lemma CancelStartsExactlyWhen(w: W.World, env: Env, id: U64, op: OpId)
    requires WorldInv(w) && id in w.books && w.books[id].ev.status.Active?
    ensures var b := w.books[id];
            W.StartCancel(w, env, id, op).Ok? <==>
              && !w.paused
              && (b.ev.releaseKind.Single? && b.prizes.unclaimed > 0 ==>
                    W.OpenTime(w, env.now) > b.prizes.expiry.GetOr(0))
              && (b.ev.pillar.Grant? && b.roster.Some? ==> FullySettled(b))
              && var manager := if b.manager.Some? then b.manager.value else b.ev.owner;
              && manager in env.auths && manager != SELF && (manager, op) !in w.seen
              && (b.roll.list == [] && b.ev.remainingEscrow > 0 ==>
                    Accepts(w.bal, env, b.ev.token, b.ev.owner, b.ev.remainingEscrow))
  {
    var b := w.books[id];
    EscrowWithinBalance(w, id);
    NobodyElseMeansNoTotal(b);
    CancelGuards(w, env, id, op);
    ReleaseExactlyWhen(w.bal, env, b.ev.token, b.ev.owner, b.ev.remainingEscrow);
    if b.ev.pillar.Grant? {
      NothingOwedMeansSettled(b);
    }
  }
}
