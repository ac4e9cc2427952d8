/** The storage of one event, and what each entry point does to it once its checks pass.

    A Book gathers the storage entries keyed by one event id. Its last field, `moves`, is
    not storage of the contract: it is the ledger's own record of the token transfers made
    for the event, against which the contract's bookkeeping is judged. */
module Books {
  import opened Numeric
  import opened Types
  import opened Milestones
  import opened Refunds
  import opened Campaign

  datatype Move =
    | Deposit(from: Address, amount: I128)
    | Fee(amount: I128)
    | Payout(to: Address, amount: I128)
    | Refund(to: Address, amount: I128)
    | Residual(amount: I128)

  /** The contributors: `list` is ContributorAt with ContributorCount its length, beside
      ContributorSlot and ContributorAmount. */
  datatype Roll = Roll(list: seq<Address>, slot: map<Address, U32>, amt: map<Address, I128>)

  /** EventPrizeAward, EventUnclaimedPrizes and EventPrizeClaimExpiry. */
  datatype Prizes = Prizes(awards: map<U32, PrizeAward>, unclaimed: U32, expiry: Option<U64>)

  datatype Book = Book(
    ev: EventRecord,
    manager: Option<Address>,
    rows: seq<Winner>,
    prizes: Prizes,
    owed: I128,
    roster: Option<map<Address, GrantAward>>,
    progress: map<Address, GrantProgress>,
    flags: map<Address, set<U32>>,
    campaignClaimed: U32,
    roll: Roll,
    nonOwnerTotal: Option<I128>,
    cancel: Option<CancellationState>,
    held: map<Address, I128>,
    moves: seq<Move>)

  // ---- storage.rs: reads with their defaults -------------------------------------------

  function AmountOf(r: Roll, a: Address): I128 { if a in r.amt then r.amt[a] else 0 }

  function SlotOf(r: Roll, a: Address): U32 { if a in r.slot then r.slot[a] else 0 }

  function FlagsOf(flags: map<Address, set<U32>>, a: Address): set<U32> { if a in flags then flags[a] else {} }

  function ProgressOf(progress: map<Address, GrantProgress>, a: Address): GrantProgress {
    if a in progress then progress[a] else GrantProgress(0, 0)
  }

  function HeldOf(held: map<Address, I128>, a: Address): I128 { if a in held then held[a] else 0 }

  function ManagerOf(b: Book): Address { b.manager.GetOr(b.ev.owner) }

  /** The stored winner count saturates one short of the rows a u32 index can name. */
  function WinnerCount(rows: seq<Winner>): U32 { Min(|rows|, U32_MAX) }

  // ---- storage.rs: writes --------------------------------------------------------------

  function AppendWinner(rows: seq<Winner>, w: Winner): seq<Winner> {
    if |rows| <= U32_MAX then rows + [w] else rows[U32_MAX := w]
  }

  function AppendContributor(r: Roll, a: Address): Result<Roll> {
    if SlotOf(r, a) != 0 then Ok(r)
    else
      :- Need(|r.list| + 1 <= U32_MAX, TooManyContributors);
      Ok(Roll(r.list + [a], r.slot[a := |r.list| + 1], r.amt))
  }

  function SetHeld(held: map<Address, I128>, a: Address, amount: I128): map<Address, I128> {
    if amount > 0 then held[a := amount] else held - {a}
  }

  function Flag(flags: map<Address, set<U32>>, a: Address, milestone: U32): map<Address, set<U32>> {
    flags[a := FlagsOf(flags, a) + {milestone}]
  }

  // ---- create_event --------------------------------------------------------------------

  function FloorSum(floors: seq<Floor>, acc: I128): Result<I128> {
    if floors == [] then Ok(acc)
    else
      :- Need(floors[0].amount > 0, InvalidDistribution);
      :- Need(acc + floors[0].amount <= I128_MAX, DistributionMismatch);
      FloorSum(floors[1..], acc + floors[0].amount)
  }

  function FloorFor(floors: seq<Floor>, position: U32): Option<I128> {
    if floors == [] then None
    else if floors[0].position == position then Some(floors[0].amount)
    else FloorFor(floors[1..], position)
  }

  predicate ReleaseKindFits(pillar: Pillar, kind: ReleaseKind) {
    match pillar
    case Hackathon => kind.Single?
    case Bounty => kind.Single?
    case Grant => kind.Split? || (kind.Multi? && kind.n > 0)
    case Crowdfunding => kind.Multi? && kind.n > 0
  }

  function DepositMoves(from: Address, amount: I128, fee: I128): seq<Move> {
    [Deposit(from, SatAdd(amount, fee))] + if fee > 0 then [Fee(fee)] else []
  }

  function NewBook(ev: EventRecord, fee: I128): Book {
    var campaign := ev.pillar.Crowdfunding?;
    Book(ev, None, if campaign then [Winner(ev.owner, 1, 0, None, None)] else [],
         Prizes(map[], 0, None), 0, None, map[], map[], 0,
         Roll([], map[], map[]), Some(0), None, map[],
         if campaign then [] else DepositMoves(ev.owner, ev.totalBudget, fee))
  }

  // ---- add_funds -----------------------------------------------------------------------

  function TotalOrInit(b: Book): Result<I128> {
    if b.nonOwnerTotal.Some? then Ok(b.nonOwnerTotal.value)
    else if b.roll.list == [] then Ok(0)
    else Err(CancellationTotalMissing)
  }

  /** The contributor index and total that a contribution from `from` builds on. */
  function Enter(b: Book, from: Address): Result<(Roll, I128)> {
    if from == b.ev.owner then Ok((b.roll, 0))
    else
      var total :- TotalOrInit(b);
      if AmountOf(b.roll, from) == 0 then
        var roll :- AppendContributor(b.roll, from);
        Ok((roll, total))
      else Ok((b.roll, total))
  }

  function Credit(b: Book, from: Address, roll: Roll, total: I128, amount: I128, fee: I128): Book {
    var funded := b.(ev := b.ev.(remainingEscrow := SatAdd(b.ev.remainingEscrow, amount)),
                     moves := b.moves + DepositMoves(from, amount, fee));
    if from == b.ev.owner then funded
    else funded.(roll := roll.(amt := roll.amt[from := SatAdd(AmountOf(b.roll, from), amount)]),
                 nonOwnerTotal := Some(SatAdd(total, amount)))
  }

  // ---- select_winners ------------------------------------------------------------------

  predicate DistinctPositions(specs: seq<WinnerSpec>) {
    forall i, j :: 0 <= i < j < |specs| ==> specs[i].position != specs[j].position
  }

  predicate PassesFloor(floors: seq<Floor>, position: U32, amount: I128) {
    var floor := FloorFor(floors, position);
    floor.None? || amount >= floor.value
  }

  /** The total of a single-release batch, or the first reason to refuse it. */
  function ValidatePrizes(b: Book, specs: seq<WinnerSpec>, acc: I128): Result<I128> {
    if specs == [] then Ok(acc)
    else
      var spec := specs[0];
      :- Need(spec.position !in b.prizes.awards, DuplicateWinnerPosition);
      :- Need(spec.amount > 0, InvalidDistribution);
      :- Need(PassesFloor(b.ev.prizeFloors, spec.position, spec.amount), InvalidDistribution);
      :- Need(acc + spec.amount <= I128_MAX, InsufficientEscrow);
      ValidatePrizes(b, specs[1..], acc + spec.amount)
  }

  function AwardRow(spec: WinnerSpec): Winner {
    Winner(spec.recipient, spec.position, spec.amount, None, None)
  }

  /** Writes the winner row and the prize award of each spec; `anchor` is the row index
      of the first, counted on from the winner count at entry. */
  function PlacePrizes(b: Book, specs: seq<WinnerSpec>, anchor: int): Result<Book>
    requires anchor >= 0
    decreases |specs|
  {
    if specs == [] then Ok(b)
    else
      :- Need(anchor <= U32_MAX, InvalidWinnerPosition);
      var spec := specs[0];
      var award := PrizeAward(spec.recipient, anchor, spec.reputationBump);
      PlacePrizes(
        b.(rows := AppendWinner(b.rows, AwardRow(spec)),
           prizes := b.prizes.(awards := b.prizes.awards[spec.position := award])),
        specs[1..], anchor + 1)
  }

  function ExtendWindow(p: Prizes, batch: nat, now: U64): Prizes {
    var expiry := SatAdd64(now, PRIZE_CLAIM_WINDOW_SECS);
    p.(unclaimed := Min(U32_MAX, p.unclaimed + batch),
       expiry := if expiry > p.expiry.GetOr(0) then Some(expiry) else p.expiry)
  }

  function AwardPrizes(b: Book, specs: seq<WinnerSpec>, committed: I128, now: U64): Result<Book> {
    var placed :- PlacePrizes(b.(owed := committed), specs, WinnerCount(b.rows));
    Ok(placed.(prizes := ExtendWindow(placed.prizes, |specs|, now)))
  }

  /** The roster and total of a grant selection, or the first reason to refuse it. */
  function ValidateGrants(ev: EventRecord, specs: seq<WinnerSpec>, roster: map<Address, GrantAward>, acc: I128)
    : Result<(map<Address, GrantAward>, I128)>
    decreases |specs|
  {
    if specs == [] then Ok((roster, acc))
    else
      var spec := specs[0];
      :- Need(EveryMilestonePays(ev.releaseKind, spec.amount), InvalidDistribution);
      :- Need(spec.recipient !in roster, DuplicateRecipient);
      :- Need(PassesFloor(ev.prizeFloors, spec.position, spec.amount), InvalidDistribution);
      :- Need(I128_MIN <= acc + spec.amount <= I128_MAX, InsufficientEscrow);
      ValidateGrants(ev, specs[1..], roster[spec.recipient := GrantAward(spec.position, spec.amount)],
                     acc + spec.amount)
  }

  function AppendAwards(rows: seq<Winner>, specs: seq<WinnerSpec>): seq<Winner>
    decreases |specs|
  {
    if specs == [] then rows else AppendAwards(AppendWinner(rows, AwardRow(specs[0])), specs[1..])
  }

  function AwardGrants(b: Book, specs: seq<WinnerSpec>, roster: map<Address, GrantAward>, committed: I128): Book {
    b.(owed := committed, roster := Some(roster), rows := AppendAwards(b.rows, specs))
  }

  // ---- claim_prize ---------------------------------------------------------------------

  function Spend(ev: EventRecord, amount: I128): EventRecord {
    var left := SatSub(ev.remainingEscrow, amount);
    ev.(remainingEscrow := left, status := if left == 0 then Completed else ev.status)
  }

  function PayPrize(b: Book, anchor: U32, now: U64): Book
    requires anchor < |b.rows|
  {
    var row := b.rows[anchor];
    b.(rows := b.rows[anchor := row.(milestone := None, paidAt := Some(now))],
       prizes := b.prizes.(unclaimed := SatSub32(b.prizes.unclaimed, 1)),
       owed := SatSub(b.owed, row.amount),
       ev := Spend(b.ev, row.amount),
       moves := b.moves + [Payout(row.recipient, row.amount)])
  }

  // ---- claim_milestone and forfeit_milestone -------------------------------------------

  function StandingOf(b: Book, recipient: Address): Result<Standing> {
    if b.roster.None? || recipient !in b.roster.value then Err(NoSubmissions) else
    var award := b.roster.value[recipient];
    var p := ProgressOf(b.progress, recipient);
    Ok(Standing(award.position, award.amount, p.settled, p.settledAmount))
  }

  function ReleaseOwed(b: Book, amount: I128): Result<Book> {
    if 0 <= b.owed - amount <= I128_MAX then Ok(b.(owed := b.owed - amount)) else Err(InsufficientEscrow)
  }

  function RecordSettlement(b: Book, recipient: Address, milestone: U32, amount: I128): Book {
    b.(flags := Flag(b.flags, recipient, milestone),
       progress := b.progress[recipient := Advance(ProgressOf(b.progress, recipient), amount)])
  }

  function PayGrant(b: Book, recipient: Address, position: U32, milestone: U32, amount: I128, now: U64): Result<Book> {
    var released :- ReleaseOwed(b, amount);
    var recorded := RecordSettlement(released, recipient, milestone, amount);
    Ok(recorded.(rows := AppendWinner(b.rows, Winner(recipient, position, amount, Some(milestone), Some(now))),
                 ev := Spend(b.ev, amount),
                 moves := b.moves + [Payout(recipient, amount)]))
  }

  function Forfeit(b: Book, recipient: Address, milestone: U32, amount: I128): Result<Book> {
    var released :- ReleaseOwed(b, amount);
    Ok(RecordSettlement(released, recipient, milestone, amount))
  }

  /** The gross amount of a campaign's next release. */
  function CampaignAmount(b: Book, totalMilestones: U32): Result<I128> {
    var open := SatSub32(totalMilestones, b.campaignClaimed);
    :- Need(open > 0, InvalidMilestone);
    :- Need(b.ev.remainingEscrow > 0, InsufficientEscrow);
    Ok(CampaignShare(b.ev.remainingEscrow, open))
  }

  function ReleaseMoves(to: Address, amount: I128, fee: I128): seq<Move> {
    var net := SatSub(amount, fee);
    (if net > 0 then [Payout(to, net)] else []) + (if fee > 0 then [Fee(fee)] else [])
  }

  function PayCampaign(b: Book, milestone: U32, amount: I128, fee: I128, now: U64): Book {
    b.(flags := Flag(b.flags, b.ev.owner, milestone),
       campaignClaimed := SatAdd32(b.campaignClaimed, 1),
       rows := AppendWinner(b.rows, Winner(b.ev.owner, 1, amount, Some(milestone), Some(now))),
       ev := Spend(b.ev, amount),
       moves := b.moves + ReleaseMoves(b.ev.owner, amount, fee))
  }

  // ---- cancellation --------------------------------------------------------------------

  function BeginCancel(b: Book, total: I128): Book {
    var remaining := b.ev.remainingEscrow;
    var branch := BranchFor(remaining, total);
    if branch == OwnerOnly then
      b.(owed := 0, nonOwnerTotal := Some(0),
         ev := b.ev.(remainingEscrow := 0, status := Cancelled),
         moves := b.moves + if remaining > 0 then [Residual(remaining)] else [])
    else
      b.(owed := 0, nonOwnerTotal := Some(total),
         ev := b.ev.(status := Cancelling),
         cancel := Some(CancellationState(total, remaining, Min(|b.roll.list|, U32_MAX), 0, branch)))
  }

  predicate MoreSlots(b: Book) { b.cancel.Some? && b.cancel.value.nextIdx < b.cancel.value.countAtStart }

  /** The transfer the crank attempts for the next slot, if it attempts one. */
  function NextRefund(b: Book): Option<(Address, I128)>
    requires MoreSlots(b)
  {
    var st := b.cancel.value;
    if st.nextIdx >= |b.roll.list| then None
    else
      var c := b.roll.list[st.nextIdx];
      var amt := AmountOf(b.roll, c);
      if amt <= 0 || RefundShare(st, amt) <= 0 then None else Some((c, RefundShare(st, amt)))
  }

  /** One slot of the crank; `accepted` is what the token answered to its transfer. */
  function CrankSlot(b: Book, accepted: bool): Book
    requires MoreSlots(b)
  {
    var st := b.cancel.value;
    var advanced := b.(cancel := Some(st.(nextIdx := st.nextIdx + 1)));
    if st.nextIdx >= |b.roll.list| then advanced
    else
      var c := b.roll.list[st.nextIdx];
      if AmountOf(b.roll, c) <= 0 then advanced
      else
        var cleared := advanced.(roll := b.roll.(amt := b.roll.amt[c := 0]));
        match NextRefund(b)
        case None => cleared
        case Some((_, payout)) =>
          if accepted then cleared.(moves := b.moves + [Refund(c, payout)])
          else cleared.(held := SetHeld(b.held, c, SatAdd(HeldOf(b.held, c), payout)))
  }

  function Finalize(b: Book, st: CancellationState): Book {
    var residual := OwnerResidual(st);
    b.(ev := b.ev.(remainingEscrow := 0, status := Cancelled),
       cancel := None, nonOwnerTotal := Some(0),
       moves := b.moves + if residual > 0 then [Residual(residual)] else [])
  }

  function Collect(b: Book, contributor: Address): Book {
    b.(held := SetHeld(b.held, contributor, 0),
       moves := b.moves + [Refund(contributor, HeldOf(b.held, contributor))])
  }
}
