/** What holds of an event's storage in every reachable state. */
module Invariants {
  import opened Numeric
  import opened Sums
  import opened Types
  import opened Milestones
  import opened Refunds
  import opened Books
  import opened Audit

  // ---- contributors --------------------------------------------------------------------

  /** The list, slots and amounts describe the same contributors, each once, never the owner. */
  ghost predicate RollInv(r: Roll, owner: Address) {
    && |r.list| <= U32_MAX
    && (forall i :: 0 <= i < |r.list| ==> r.list[i] in r.slot && r.slot[r.list[i]] == i + 1)
    && (forall a :: a in r.slot ==> a in r.list)
    && (forall a :: a in r.amt ==> a in r.slot && r.amt[a] >= 0)
    && owner !in r.slot
  }

  /** The amounts over the contributor list, in list order. */
  ghost function Amounts(r: Roll): (xs: seq<I128>)
    ensures |xs| == |r.list|
  {
    seq(|r.list|, i requires 0 <= i < |r.list| => AmountOf(r, r.list[i]))
  }

  /** While an event is active, everyone on the list has put something in and the stored
      total is the sum over the list. */
  ghost predicate Contributors(r: Roll, owner: Address, total: Option<I128>) {
    && RollInv(r, owner)
    && total == Some(Sum(Amounts(r)))
    && forall a :: a in r.slot ==> AmountOf(r, a) > 0
  }

  // ---- prizes --------------------------------------------------------------------------

  ghost function UnpaidAmounts(rows: seq<Winner>): (xs: seq<int>)
    ensures |xs| == |rows|
  {
    seq(|rows|, i requires 0 <= i < |rows| => if rows[i].paidAt.None? then rows[i].amount else 0)
  }

  ghost function UnpaidMarks(rows: seq<Winner>): (xs: seq<int>)
    ensures |xs| == |rows|
  {
    seq(|rows|, i requires 0 <= i < |rows| => if rows[i].paidAt.None? then 1 else 0)
  }

  ghost function PaidAmounts(rows: seq<Winner>, a: Address): (xs: seq<int>)
    ensures |xs| == |rows|
  {
    seq(|rows|, i requires 0 <= i < |rows| =>
          if rows[i].paidAt.Some? && rows[i].recipient == a then rows[i].amount else 0)
  }

  /** The j-th floor is the first listed for its position, the one that binds. */
  ghost predicate FirstAt(floors: seq<Floor>, j: nat)
    requires j < |floors|
  {
    forall k :: 0 <= k < j ==> floors[k].position != floors[j].position
  }

  /** An amount at or above the floor listed for its position, if one is. */
  ghost predicate MeetsFloor(floors: seq<Floor>, position: U32, amount: I128) {
    forall j :: 0 <= j < |floors| && floors[j].position == position && FirstAt(floors, j) ==> amount >= floors[j].amount
  }

  /** The floor looked up for a position is the first listed for it, and none only if none is. */
  lemma {:induction false} FloorForIsFirst(floors: seq<Floor>, position: U32)
    ensures FloorFor(floors, position) == None <==> forall j :: 0 <= j < |floors| ==> floors[j].position != position
    ensures forall j :: 0 <= j < |floors| && floors[j].position == position && FirstAt(floors, j) ==>
              FloorFor(floors, position) == Some(floors[j].amount)
    ensures FloorFor(floors, position).Some? ==>
              exists j :: 0 <= j < |floors| && floors[j].position == position && FirstAt(floors, j)
    decreases |floors|
  {
    if floors != [] && floors[0].position != position {
      var tail := floors[1..];
      FloorForIsFirst(tail, position);
      assert forall j :: 0 < j < |floors| ==> floors[j] == tail[j - 1];
      forall j | 0 <= j < |floors| && floors[j].position == position && FirstAt(floors, j)
        ensures FirstAt(tail, j - 1)
      {
        assert forall k :: 0 <= k < j - 1 ==> tail[k] == floors[k + 1];
      }
      if FloorFor(tail, position).Some? {
        var j :| 0 <= j < |tail| && tail[j].position == position && FirstAt(tail, j);
        assert floors[j + 1] == tail[j];
        assert forall k :: 0 < k < j + 1 ==> floors[k] == tail[k - 1];
        assert FirstAt(floors, j + 1);
      }
    } else if floors != [] {
      assert FirstAt(floors, 0);
    }
  }

  lemma PassesExactlyWhen(floors: seq<Floor>, position: U32, amount: I128)
    ensures PassesFloor(floors, position, amount) <==> MeetsFloor(floors, position, amount)
  {
    FloorForIsFirst(floors, position);
  }

  /** Rows and awards are the same list of prizes: each position once, at or above its floor. */
  ghost predicate PrizeRows(floors: seq<Floor>, rows: seq<Winner>, awards: map<U32, PrizeAward>) {
    && |rows| <= U32_MAX + 1
    && (forall i :: 0 <= i < |rows| ==>
          && rows[i].milestone.None? && rows[i].amount > 0
          && MeetsFloor(floors, rows[i].position, rows[i].amount)
          && rows[i].position in awards
          && awards[rows[i].position].anchorIdx == i
          && awards[rows[i].position].recipient == rows[i].recipient)
    && (forall p :: p in awards ==> awards[p].anchorIdx < |rows| && rows[awards[p].anchorIdx].position == p)
  }

  ghost predicate Unscheduled(b: Book) {
    b.roster.None? && b.progress == map[]
  }

  ghost predicate PrizeInv(b: Book) {
    && Unscheduled(b) && b.flags == map[] && b.campaignClaimed == 0
    && PrizeRows(b.ev.prizeFloors, b.rows, b.prizes.awards)
    && b.prizes.unclaimed == Sum(UnpaidMarks(b.rows))
    && (b.ev.status.Active? || b.ev.status.Completed? ==> b.owed == Sum(UnpaidAmounts(b.rows)))
    && (forall a :: PaidTo(b.moves, a) == Sum(PaidAmounts(b.rows, a)))
    && (b.ev.status.Completed? ==> b.rows != [])
  }

  // ---- grants --------------------------------------------------------------------------

  /** A recipient's progress agrees with its milestone flags, and its payments with both. */
  ghost predicate RecipientInv(kind: ReleaseKind, award: I128, flags: set<U32>, p: GrantProgress, paid: int) {
    && GrantKind(kind) && EveryMilestonePays(kind, award) && award >= 0
    && Tracks(kind, award, flags, p)
    && 0 <= paid <= p.settledAmount
  }

  ghost function Outstanding(roster: map<Address, GrantAward>, progress: map<Address, GrantProgress>)
    : map<Address, int>
  {
    map a | a in roster :: roster[a].amount - ProgressOf(progress, a).settledAmount
  }

  /** What is settled and was never paid; module Settlements proves it is what was forfeited. */
  ghost function Withheld(roster: map<Address, GrantAward>, progress: map<Address, GrantProgress>, moves: seq<Move>)
    : map<Address, int>
  {
    map a | a in roster :: ProgressOf(progress, a).settledAmount - PaidTo(moves, a)
  }

  ghost predicate RosterInv(kind: ReleaseKind, roster: map<Address, GrantAward>, flags: map<Address, set<U32>>,
                            progress: map<Address, GrantProgress>, moves: seq<Move>)
  {
    && (forall a :: a in roster ==>
          RecipientInv(kind, roster[a].amount, FlagsOf(flags, a), ProgressOf(progress, a), PaidTo(moves, a)))
    && (forall a :: a !in roster ==>
          FlagsOf(flags, a) == {} && ProgressOf(progress, a) == GrantProgress(0, 0) && PaidTo(moves, a) == 0)
  }

  /** What is still owed, and what is settled but unpaid, both lie in the escrow. */
  ghost predicate ReservedInv(b: Book)
    requires b.roster.Some?
  {
    && b.owed == MapSum(Outstanding(b.roster.value, b.progress))
    && b.owed + MapSum(Withheld(b.roster.value, b.progress, b.moves)) <= b.ev.remainingEscrow
  }

  ghost predicate FullySettled(b: Book)
    requires b.roster.Some?
  {
    forall a :: a in b.roster.value ==> ProgressOf(b.progress, a).settledAmount == b.roster.value[a].amount
  }

  ghost predicate FullyPaid(b: Book)
    requires b.roster.Some?
  {
    forall a :: a in b.roster.value ==> PaidTo(b.moves, a) == b.roster.value[a].amount
  }

  ghost predicate GrantInv(b: Book) {
    && GrantKind(b.ev.releaseKind)
    && b.prizes.awards == map[] && b.campaignClaimed == 0
    && match b.roster
       case None =>
         && !b.ev.status.Completed?
         && b.rows == [] && b.owed == 0 && RosterInv(b.ev.releaseKind, map[], b.flags, b.progress, b.moves)
       case Some(roster) =>
         && b.rows != []
         && RosterInv(b.ev.releaseKind, roster, b.flags, b.progress, b.moves)
         && (if b.ev.status.Active? then ReservedInv(b) else FullySettled(b))
         && (b.ev.status.Completed? ==> FullyPaid(b))
  }

  // ---- campaigns -----------------------------------------------------------------------

  ghost predicate CampaignInv(b: Book) {
    && b.ev.releaseKind.Multi? && b.ev.releaseKind.n > 0
    && Unscheduled(b) && b.prizes.awards == map[] && b.owed == 0
    && (forall a :: a != b.ev.owner ==> FlagsOf(b.flags, a) == {})
    && var n := b.ev.releaseKind.n;
    && Below(FlagsOf(b.flags, b.ev.owner), n)
    && b.campaignClaimed == |FlagsOf(b.flags, b.ev.owner)|
    && (b.ev.status.Active? ==>
          && b.campaignClaimed < n
          && (b.ev.remainingEscrow == 0 ==> b.campaignClaimed == 0)
          && (b.ev.remainingEscrow > 0 && n <= MIN_CONTRIBUTION_STROOPS ==>
                b.ev.remainingEscrow >= n - b.campaignClaimed))
    && (b.ev.status.Completed? ==> b.campaignClaimed == n)
  }

  // ---- money ---------------------------------------------------------------------------

  /** The refunds not yet cranked: a cranked slot has no amount left. */
  ghost function PendingRefunds(b: Book): int {
    if b.cancel.Some? then Sum(Shares(b.cancel.value, Amounts(b.roll))) else 0
  }

  /** What the contract may still be asked to pay out for an event. */
  ghost function Liability(b: Book): int {
    match b.ev.status
    case Active => b.ev.remainingEscrow
    case Completed => b.ev.remainingEscrow
    case Cancelling =>
      PendingRefunds(b) + (if b.cancel.Some? then OwnerResidual(b.cancel.value) else 0) + MapSum(b.held)
    case Cancelled => MapSum(b.held)
  }

  /** What moved in for an event and neither moved out nor is owed to anyone. */
  ghost function Dust(b: Book): int { NetOf(b) - Liability(b) }

  ghost predicate NothingRefunded(b: Book) {
    b.held == map[] && forall a :: RefundedTo(b.moves, a) == 0
  }

  ghost predicate ActiveInv(b: Book) {
    && b.cancel.None? && NothingRefunded(b)
    && Contributors(b.roll, b.ev.owner, b.nonOwnerTotal)
    && 0 <= b.owed <= b.ev.remainingEscrow
    && (b.ev.remainingEscrow > 0 || b.ev.pillar.Crowdfunding?)
    && Dust(b) == 0
  }

  ghost predicate Unrefunded(b: Book, a: Address) {
    a !in b.held && RefundedTo(b.moves, a) == 0
  }

  /** Every slot from nextIdx on still has its amount and nothing refunded; those before have none. */
  ghost predicate SlotsInv(b: Book) {
    && b.cancel.Some?
    && forall i :: 0 <= i < |b.roll.list| ==>
         if i < b.cancel.value.nextIdx then AmountOf(b.roll, b.roll.list[i]) == 0
         else AmountOf(b.roll, b.roll.list[i]) > 0 && Unrefunded(b, b.roll.list[i])
  }

  ghost predicate CancellingInv(b: Book) {
    && b.cancel.Some?
    && var st := b.cancel.value;
    && ValidTerms(st)
    && st.countAtStart == |b.roll.list| && st.nextIdx <= st.countAtStart
    && st.remainingAtStart == b.ev.remainingEscrow
    && b.nonOwnerTotal == Some(st.nonOwnerTotal)
    && SlotsInv(b)
    && Sum(Amounts(b.roll)) <= st.nonOwnerTotal
    && b.owed == 0
    && (if st.branch.ProRataPartners? then Dust(b) >= 0 else Dust(b) == 0)
  }

  ghost predicate MoneyInv(b: Book) {
    && (forall a :: a in b.held ==> a in b.roll.slot && b.held[a] > 0)
    && match b.ev.status
       case Active => b.ev.remainingEscrow >= 0 && ActiveInv(b)
       case Completed => b.cancel.None? && NothingRefunded(b) && b.ev.remainingEscrow == 0 && b.owed == 0
             && Dust(b) == 0
       case Cancelling => CancellingInv(b)
       case Cancelled =>
         && b.cancel.None? && b.ev.remainingEscrow == 0 && b.owed == 0 && b.nonOwnerTotal == Some(0)
         && Dust(b) >= 0
  }

  /** What create_event checked and nothing changes. */
  ghost predicate TermsInv(ev: EventRecord) {
    && ReleaseKindFits(ev.pillar, ev.releaseKind)
    && (ev.feeBpsOverride.Some? ==> ev.feeBpsOverride.value <= MAX_FEE_BPS)
  }

  ghost predicate PillarInv(b: Book) {
    match b.ev.pillar
    case Hackathon => PrizeInv(b)
    case Bounty => PrizeInv(b)
    case Grant => GrantInv(b)
    case Crowdfunding => CampaignInv(b)
  }

  ghost predicate BookInv(b: Book) {
    && TermsInv(b.ev)
    && RollInv(b.roll, b.ev.owner)
    && MoneyInv(b)
    && PillarInv(b)
  }

  lemma NewBookInv(ev: EventRecord, fee: I128)
    requires TermsInv(ev) && (ev.pillar.Grant? ==> GrantKind(ev.releaseKind))
    requires ev.status.Active? && ev.totalBudget > 0 && fee >= 0
    requires ev.remainingEscrow == if ev.pillar.Crowdfunding? then 0 else ev.totalBudget
    requires !ev.pillar.Crowdfunding? ==> ev.totalBudget + fee <= I128_MAX
    ensures BookInv(NewBook(ev, fee))
  {
    var b := NewBook(ev, fee);
    if !ev.pillar.Crowdfunding? {
      AppendDeposit([], ev.owner, ev.totalBudget, fee);
      assert [] + DepositMoves(ev.owner, ev.totalBudget, fee) == b.moves;
    }
    assert Amounts(b.roll) == [];
  }
}
