/** The steps an event can take: when each is allowed and what it does. */
module Steps {
  import opened Numeric
  import opened Types
  import opened Milestones
  import opened Books

  datatype Op =
    | Fund(from: Address, amount: I128, fee: I128)
    | SelectPrizes(specs: seq<WinnerSpec>, now: U64)
    | SelectGrants(specs: seq<WinnerSpec>)
    | ClaimPrize(position: U32, now: U64)
    | ClaimGrant(recipient: Address, milestone: U32, now: U64)
    | ClaimCampaign(milestone: U32, fee: I128, now: U64)
    | ForfeitGrant(recipient: Address, milestone: U32)
    | StartCancel
    | Crank(accepted: seq<bool>)
    | FinalizeCancel
    | CollectRefund(contributor: Address)
    | Delegate(manager: Option<Address>)

  /** The settlement a claim or forfeit of this milestone makes. */
  function GrantShare(b: Book, recipient: Address, milestone: U32): Result<I128> {
    var s :- StandingOf(b, recipient);
    var n := b.ev.releaseKind.Milestones();
    :- Need(n.Some? && 0 < n.value <= U32_MAX, InvalidReleaseKind);
    Share(s, b.ev.releaseKind, n.value, milestone)
  }

  // ---- when each step is allowed, and what it does -------------------------------------

  ghost predicate FundOk(b: Book, from: Address, amount: I128, fee: I128) {
    && b.ev.status.Active? && amount >= MIN_CONTRIBUTION_STROOPS
    && fee >= 0 && amount + fee <= I128_MAX && b.ev.remainingEscrow + amount <= I128_MAX
    && Enter(b, from).Ok?
  }

  function FundStep(b: Book, from: Address, amount: I128, fee: I128): Book {
    if Enter(b, from).Ok? then
      var (roll, total) := Enter(b, from).value;
      Credit(b, from, roll, total, amount, fee)
    else b
  }

  /** The contributions' total has room for one more, or it is all this contributor's. */
  predicate FundFits(b: Book, from: Address, amount: I128) {
    var total := b.nonOwnerTotal.GetOr(0);
    from != b.ev.owner ==> total + amount <= I128_MAX || AmountOf(b.roll, from) == total
  }

  ghost predicate SelectPrizesOk(b: Book, specs: seq<WinnerSpec>, now: U64) {
    && b.ev.status.Active? && b.ev.releaseKind.Single?
    && specs != [] && DistinctPositions(specs)
    && var total := ValidatePrizes(b, specs, 0);
    && total.Ok?
    && total.value + b.owed <= b.ev.remainingEscrow
    && AwardPrizes(b, specs, SatAdd(total.value, b.owed), now).Ok?
  }

  function SelectPrizesStep(b: Book, specs: seq<WinnerSpec>, now: U64): Book {
    var total := ValidatePrizes(b, specs, 0);
    if total.Err? then b
    else
      var r := AwardPrizes(b, specs, SatAdd(total.value, b.owed), now);
      if r.Ok? then r.value else b
  }

  /** No row index is left to overwrite, and the count of unclaimed prizes has room. */
  predicate SelectPrizesFits(b: Book, specs: seq<WinnerSpec>) {
    |b.rows| <= U32_MAX && b.prizes.unclaimed + |specs| <= U32_MAX
  }

  ghost predicate SelectGrantsOk(b: Book, specs: seq<WinnerSpec>) {
    && b.ev.status.Active? && b.ev.pillar.Grant? && b.rows == [] && specs != []
    && var r := ValidateGrants(b.ev, specs, map[], 0);
    && r.Ok? && r.value.1 + b.owed <= b.ev.remainingEscrow
  }

  function SelectGrantsStep(b: Book, specs: seq<WinnerSpec>): Book {
    var r := ValidateGrants(b.ev, specs, map[], 0);
    if r.Ok? then AwardGrants(b, specs, r.value.0, SatAdd(r.value.1, b.owed)) else b
  }

  ghost predicate ClaimPrizeOk(b: Book, position: U32) {
    && b.ev.status.Active? && b.ev.releaseKind.Single?
    && position in b.prizes.awards
    && var anchor := b.prizes.awards[position].anchorIdx;
    && anchor < |b.rows|
    && b.rows[anchor].paidAt.None?
    && 0 < b.rows[anchor].amount <= Min(b.owed, b.ev.remainingEscrow)
  }

  function ClaimPrizeStep(b: Book, position: U32, now: U64): Book {
    if position in b.prizes.awards && b.prizes.awards[position].anchorIdx < |b.rows|
    then PayPrize(b, b.prizes.awards[position].anchorIdx, now) else b
  }

  /** What a claim and a forfeit of a grant milestone both need. */
  ghost predicate SettleOk(b: Book, recipient: Address, milestone: U32) {
    && b.ev.status.Active? && b.ev.pillar.Grant?
    && b.ev.releaseKind.Milestones().Some? && milestone < b.ev.releaseKind.Milestones().value
    && milestone !in FlagsOf(b.flags, recipient)
    && GrantShare(b, recipient, milestone).Ok?
    && GrantShare(b, recipient, milestone).value > 0
    && ReleaseOwed(b, GrantShare(b, recipient, milestone).value).Ok?
  }

  ghost predicate ClaimGrantOk(b: Book, recipient: Address, milestone: U32) {
    SettleOk(b, recipient, milestone) && GrantShare(b, recipient, milestone).value <= b.ev.remainingEscrow
  }

  function ClaimGrantStep(b: Book, recipient: Address, milestone: U32, now: U64): Book {
    var amount := GrantShare(b, recipient, milestone);
    if amount.Err? then b
    else
      var r := PayGrant(b, recipient, b.roster.value[recipient].position, milestone, amount.value, now);
      if r.Ok? then r.value else b
  }

  function ForfeitGrantStep(b: Book, recipient: Address, milestone: U32): Book {
    var amount := GrantShare(b, recipient, milestone);
    if amount.Err? then b
    else
      var r := Forfeit(b, recipient, milestone, amount.value);
      if r.Ok? then r.value else b
  }

  ghost predicate ClaimCampaignOk(b: Book, milestone: U32, fee: I128) {
    && b.ev.status.Active? && b.ev.pillar.Crowdfunding?
    && b.ev.releaseKind.Multi? && milestone < b.ev.releaseKind.n
    && milestone !in FlagsOf(b.flags, b.ev.owner)
    && CampaignAmount(b, b.ev.releaseKind.n).Ok?
    && 0 <= fee < CampaignAmount(b, b.ev.releaseKind.n).value <= b.ev.remainingEscrow
  }

  function ClaimCampaignStep(b: Book, milestone: U32, fee: I128, now: U64): Book {
    if b.ev.releaseKind.Multi? && CampaignAmount(b, b.ev.releaseKind.n).Ok? then
      PayCampaign(b, milestone, CampaignAmount(b, b.ev.releaseKind.n).value, fee, now)
    else b
  }

  ghost predicate StartCancelOk(b: Book) {
    b.ev.status.Active? && (b.ev.pillar.Grant? ==> b.owed <= 0) && TotalOrInit(b).Ok?
  }

  function StartCancelStep(b: Book): Book {
    if TotalOrInit(b).Ok? then BeginCancel(b, TotalOrInit(b).value) else b
  }

  function CrankAll(b: Book, accepted: seq<bool>): Book
    decreases |accepted|
  {
    if accepted == [] || !MoreSlots(b) then b
    else CrankAll(CrankSlot(b, accepted[0]), accepted[1..])
  }

  ghost predicate FinalizeOk(b: Book) { b.ev.status.Cancelling? && b.cancel.Some? && !MoreSlots(b) }

  function FinalizeStep(b: Book): Book { if b.cancel.Some? then Finalize(b, b.cancel.value) else b }

  ghost predicate Enabled(b: Book, op: Op) {
    match op
    case Fund(from, amount, fee) => FundOk(b, from, amount, fee)
    case SelectPrizes(specs, now) => SelectPrizesOk(b, specs, now)
    case SelectGrants(specs) => SelectGrantsOk(b, specs)
    case ClaimPrize(position, _) => ClaimPrizeOk(b, position)
    case ClaimGrant(recipient, milestone, _) => ClaimGrantOk(b, recipient, milestone)
    case ForfeitGrant(recipient, milestone) => SettleOk(b, recipient, milestone)
    case ClaimCampaign(milestone, fee, _) => ClaimCampaignOk(b, milestone, fee)
    case StartCancel => StartCancelOk(b)
    case Crank(_) => b.ev.status.Cancelling?
    case FinalizeCancel => FinalizeOk(b)
    case CollectRefund(contributor) => HeldOf(b.held, contributor) > 0
    case Delegate(_) => true
  }

  function Apply(b: Book, op: Op): Book {
    match op
    case Fund(from, amount, fee) => FundStep(b, from, amount, fee)
    case SelectPrizes(specs, now) => SelectPrizesStep(b, specs, now)
    case SelectGrants(specs) => SelectGrantsStep(b, specs)
    case ClaimPrize(position, now) => ClaimPrizeStep(b, position, now)
    case ClaimGrant(recipient, milestone, now) => ClaimGrantStep(b, recipient, milestone, now)
    case ForfeitGrant(recipient, milestone) => ForfeitGrantStep(b, recipient, milestone)
    case ClaimCampaign(milestone, fee, now) => ClaimCampaignStep(b, milestone, fee, now)
    case StartCancel => StartCancelStep(b)
    case Crank(accepted) => CrankAll(b, accepted)
    case FinalizeCancel => FinalizeStep(b)
    case CollectRefund(contributor) => Collect(b, contributor)
    case Delegate(manager) => b.(manager := manager)
  }

  /** The saturating counters this step adds to have room. */
  predicate Fits(b: Book, op: Op) {
    match op
    case Fund(from, amount, _) => FundFits(b, from, amount)
    case SelectPrizes(specs, _) => SelectPrizesFits(b, specs)
    case _ => true
  }
}
