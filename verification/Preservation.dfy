/** Every enabled step keeps the invariant of an event. */
module Preservation {
  import opened Numeric
  import opened Sums
  import opened Types
  import opened Milestones
  import opened Refunds
  import opened Campaign
  import opened Books
  import opened Audit
  import opened Invariants
  import opened Steps

  // ---- add_funds -----------------------------------------------------------------------

  lemma AmountsNonNegative(r: Roll, owner: Address)
    requires RollInv(r, owner)
    ensures forall i :: 0 <= i < |r.list| ==> Amounts(r)[i] >= 0
  {
  }

  function Entered(r: Roll, a: Address, amount: I128): Roll
    requires |r.list| < U32_MAX
  {
    Roll(r.list + [a], r.slot[a := |r.list| + 1], r.amt[a := amount])
  }

  function Changed(r: Roll, a: Address, amount: I128): Roll { r.(amt := r.amt[a := amount]) }

  /** A new contributor takes the next slot. */
  lemma RollEnter(r: Roll, owner: Address, a: Address, amount: I128)
    requires RollInv(r, owner) && a != owner && a !in r.slot && amount >= 0 && |r.list| < U32_MAX
    ensures RollInv(Entered(r, a, amount), owner)
  {
  }

  lemma RollEnterAmounts(r: Roll, owner: Address, a: Address, amount: I128)
    requires RollInv(r, owner) && a != owner && a !in r.slot && amount >= 0 && |r.list| < U32_MAX
    ensures Amounts(Entered(r, a, amount)) == Amounts(r) + [amount]
  {
  }

  /** Changing a contributor's amount changes one entry of the list. */
  lemma RollChange(r: Roll, owner: Address, a: Address, amount: I128)
    requires RollInv(r, owner) && a in r.slot && amount >= 0
    ensures RollInv(Changed(r, a, amount), owner)
    ensures Amounts(r)[r.slot[a] - 1] == AmountOf(r, a)
    ensures Amounts(Changed(r, a, amount)) == Amounts(r)[r.slot[a] - 1 := amount]
  {
  }

  lemma RollEnterTotal(r: Roll, owner: Address, a: Address, amount: I128)
    requires RollInv(r, owner) && a != owner && a !in r.slot && amount >= 0 && |r.list| < U32_MAX
    ensures Sum(Amounts(Entered(r, a, amount))) == Sum(Amounts(r)) + amount
  {
    RollEnterAmounts(r, owner, a, amount);
    SumAppend(Amounts(r), amount);
  }

  lemma RollChangeTotal(r: Roll, owner: Address, a: Address, amount: I128)
    requires RollInv(r, owner) && a in r.slot && amount >= 0
    ensures Sum(Amounts(Changed(r, a, amount))) == Sum(Amounts(r)) - AmountOf(r, a) + amount
  {
    RollChange(r, owner, a, amount);
    SumUpdate(Amounts(r), r.slot[a] - 1, amount);
  }

  lemma AmountWithinTotal(r: Roll, owner: Address, a: Address)
    requires RollInv(r, owner) && a in r.slot
    ensures 0 <= AmountOf(r, a) <= Sum(Amounts(r))
  {
    RollChange(r, owner, a, 0);
    AmountsNonNegative(r, owner);
    SumNonNegative(Amounts(r));
  }

  /** The contributor list after a contribution that does not overflow the total. */
  function Credited(r: Roll, from: Address, amount: I128): Roll
    requires |r.list| < U32_MAX || AmountOf(r, from) != 0
  {
    if AmountOf(r, from) == 0 then Entered(r, from, amount)
    else Changed(r, from, SatAdd(AmountOf(r, from), amount))
  }

  lemma NewContributor(r: Roll, owner: Address, from: Address)
    requires RollInv(r, owner) && forall a :: a in r.slot ==> AmountOf(r, a) > 0
    ensures AmountOf(r, from) == 0 <==> from !in r.slot
    ensures AmountOf(r, from) >= 0
  {
  }

  lemma CreditInv(r: Roll, owner: Address, from: Address, amount: I128)
    requires RollInv(r, owner) && from != owner && amount > 0
    requires forall a :: a in r.slot ==> AmountOf(r, a) > 0
    requires |r.list| < U32_MAX || AmountOf(r, from) != 0
    ensures RollInv(Credited(r, from, amount), owner)
    ensures forall a :: a in Credited(r, from, amount).slot ==> AmountOf(Credited(r, from, amount), a) > 0
  {
    NewContributor(r, owner, from);
    if AmountOf(r, from) == 0 {
      RollEnter(r, owner, from, amount);
    } else {
      RollChange(r, owner, from, SatAdd(AmountOf(r, from), amount));
    }
  }

  lemma CreditTotal(r: Roll, owner: Address, from: Address, amount: I128)
    requires RollInv(r, owner) && from != owner && amount > 0
    requires forall a :: a in r.slot ==> AmountOf(r, a) > 0
    requires |r.list| < U32_MAX || AmountOf(r, from) != 0
    ensures Sum(Amounts(Credited(r, from, amount))) ==
            Sum(Amounts(r)) - AmountOf(r, from) + Min(I128_MAX, AmountOf(r, from) + amount)
  {
    NewContributor(r, owner, from);
    if AmountOf(r, from) == 0 {
      RollEnterTotal(r, owner, from, amount);
    } else {
      RollChangeTotal(r, owner, from, SatAdd(AmountOf(r, from), amount));
    }
  }

  lemma TotalBounds(r: Roll, owner: Address, a: Address)
    requires RollInv(r, owner)
    ensures 0 <= AmountOf(r, a) <= Sum(Amounts(r))
  {
    AmountsNonNegative(r, owner);
    SumNonNegative(Amounts(r));
    if a in r.slot {
      AmountWithinTotal(r, owner, a);
    }
  }

  /** A contribution keeps the stored total the sum over the list: it raises both by its
      amount as long as that fits, and clips both alike for an only contributor. */
  lemma CreditContributors(r: Roll, owner: Address, total: I128, from: Address, amount: I128)
    requires Contributors(r, owner, Some(total)) && from != owner && amount > 0
    requires |r.list| < U32_MAX || AmountOf(r, from) != 0
    requires total + amount <= I128_MAX || AmountOf(r, from) == total
    ensures Contributors(Credited(r, from, amount), owner, Some(SatAdd(total, amount)))
  {
    TotalBounds(r, owner, from);
    CreditTotal(r, owner, from, amount);
    CreditInv(r, owner, from, amount);
  }

  /** A deposit leaves awards, milestones and payouts as they were. */
  ghost predicate OnlyFunded(b: Book, b': Book) {
    && b' == b.(ev := b'.ev, roll := b'.roll, nonOwnerTotal := b'.nonOwnerTotal, moves := b'.moves)
    && b'.ev == b.ev.(remainingEscrow := b'.ev.remainingEscrow)
    && b'.ev.remainingEscrow >= b.ev.remainingEscrow + MIN_CONTRIBUTION_STROOPS
    && forall a :: PaidTo(b'.moves, a) == PaidTo(b.moves, a)
  }

  lemma FundedPrizes(b: Book, b': Book)
    requires PrizeInv(b) && b.ev.status.Active? && OnlyFunded(b, b')
    ensures PrizeInv(b')
  {
  }

  lemma FundedRoster(kind: ReleaseKind, roster: map<Address, GrantAward>, flags: map<Address, set<U32>>,
                     progress: map<Address, GrantProgress>, moves: seq<Move>, moves': seq<Move>)
    requires RosterInv(kind, roster, flags, progress, moves)
    requires forall a :: PaidTo(moves', a) == PaidTo(moves, a)
    ensures RosterInv(kind, roster, flags, progress, moves')
  {
  }

  lemma SameForfeits(roster: map<Address, GrantAward>, progress: map<Address, GrantProgress>, moves: seq<Move>,
                     moves': seq<Move>)
    requires forall a :: PaidTo(moves', a) == PaidTo(moves, a)
    ensures Withheld(roster, progress, moves') == Withheld(roster, progress, moves)
  {
  }

  lemma FundedGrant(b: Book, b': Book)
    requires GrantInv(b) && b.ev.status.Active? && OnlyFunded(b, b')
    ensures GrantInv(b')
  {
    if b.roster.Some? {
      SameForfeits(b.roster.value, b.progress, b.moves, b'.moves);
    }
    FundedRoster(b.ev.releaseKind, if b.roster.Some? then b.roster.value else map[], b.flags, b.progress, b.moves,
          b'.moves);
  }

  lemma FundedCampaign(b: Book, b': Book)
    requires CampaignInv(b) && b.ev.status.Active? && OnlyFunded(b, b') && b.ev.remainingEscrow >= 0
    ensures CampaignInv(b')
  {
  }

  lemma FundRoll(b: Book, from: Address, amount: I128, fee: I128)
    requires Contributors(b.roll, b.ev.owner, b.nonOwnerTotal)
    requires Enter(b, from).Ok? && from != b.ev.owner
    ensures |b.roll.list| < U32_MAX || AmountOf(b.roll, from) != 0
    ensures FundStep(b, from, amount, fee).roll == Credited(b.roll, from, amount)
    ensures FundStep(b, from, amount, fee).nonOwnerTotal == Some(SatAdd(b.nonOwnerTotal.value, amount))
  {
    NewContributor(b.roll, b.ev.owner, from);
  }

  lemma FundKeepsContributors(b: Book, from: Address, amount: I128, fee: I128)
    requires Contributors(b.roll, b.ev.owner, b.nonOwnerTotal)
    requires FundOk(b, from, amount, fee) && FundFits(b, from, amount)
    ensures var b' := FundStep(b, from, amount, fee);
            Contributors(b'.roll, b.ev.owner, b'.nonOwnerTotal)
  {
    if from != b.ev.owner {
      FundRoll(b, from, amount, fee);
      CreditContributors(b.roll, b.ev.owner, b.nonOwnerTotal.value, from, amount);
    }
  }

  lemma FundKeepsMoney(b: Book, from: Address, amount: I128, fee: I128)
    requires MoneyInv(b)
    requires FundOk(b, from, amount, fee) && FundFits(b, from, amount)
    ensures MoneyInv(FundStep(b, from, amount, fee))
  {
    AppendDeposit(b.moves, from, amount, fee);
    FundKeepsContributors(b, from, amount, fee);
  }

  lemma FundIsOnlyFunding(b: Book, from: Address, amount: I128, fee: I128)
    requires FundOk(b, from, amount, fee) && b.ev.remainingEscrow >= 0
    ensures OnlyFunded(b, FundStep(b, from, amount, fee))
  {
    AppendDeposit(b.moves, from, amount, fee);
  }

  lemma FundKeeps(b: Book, from: Address, amount: I128, fee: I128)
    requires BookInv(b) && FundOk(b, from, amount, fee) && FundFits(b, from, amount)
    ensures BookInv(FundStep(b, from, amount, fee))
  {
    var b' := FundStep(b, from, amount, fee);
    FundKeepsContributors(b, from, amount, fee);
    FundKeepsMoney(b, from, amount, fee);
    FundIsOnlyFunding(b, from, amount, fee);
    match b.ev.pillar
    case Grant => FundedGrant(b, b');
    case Crowdfunding => FundedCampaign(b, b');
    case _ => FundedPrizes(b, b');
  }

  /** A step that moves no money only has to keep what is owed within the escrow. */
  lemma MoneyUnmoved(b: Book, b': Book)
    requires MoneyInv(b) && b.ev.status.Active?
    requires b' == b.(rows := b'.rows, prizes := b'.prizes, owed := b'.owed, roster := b'.roster,
                      progress := b'.progress, flags := b'.flags)
    requires 0 <= b'.owed <= b.ev.remainingEscrow
    ensures MoneyInv(b')
  {
  }

  /** A step that pays `amount` out of the escrow. */
  lemma MoneyPaid(b: Book, b': Book, amount: I128)
    requires MoneyInv(b) && b.ev.status.Active? && 0 < amount <= b.ev.remainingEscrow
    requires b'.ev == Spend(b.ev, amount)
    requires b'.roll == b.roll && b'.nonOwnerTotal == b.nonOwnerTotal && b'.cancel == b.cancel && b'.held == b.held
    requires 0 <= b'.owed <= b'.ev.remainingEscrow
    requires Net(b'.moves) == Net(b.moves) - amount
    requires forall a :: RefundedTo(b'.moves, a) == RefundedTo(b.moves, a)
    ensures MoneyInv(b')
  {
    assert ActiveInv(b);
    assert NothingRefunded(b');
    assert b'.ev.remainingEscrow == b.ev.remainingEscrow - amount && Dust(b') == 0;
    assert b'.ev.status.Active? ==> ActiveInv(b');
  }

  // ---- select_winners, single release --------------------------------------------------

  ghost function SpecAmounts(specs: seq<WinnerSpec>): (xs: seq<int>)
    ensures |xs| == |specs|
  {
    seq(|specs|, i requires 0 <= i < |specs| => specs[i].amount)
  }

  /** A batch that is not refused names fresh positions, at or above their floors. */
  ghost predicate Awardable(floors: seq<Floor>, awards: map<U32, PrizeAward>, specs: seq<WinnerSpec>) {
    forall i :: 0 <= i < |specs| ==>
      && specs[i].position !in awards && specs[i].amount > 0
      && MeetsFloor(floors, specs[i].position, specs[i].amount)
  }

  lemma {:induction false} ValidatedPrizes(b: Book, specs: seq<WinnerSpec>, acc: I128)
    requires ValidatePrizes(b, specs, acc).Ok? && acc >= 0
    ensures Awardable(b.ev.prizeFloors, b.prizes.awards, specs)
    ensures ValidatePrizes(b, specs, acc).value == acc + Sum(SpecAmounts(specs))
    ensures ValidatePrizes(b, specs, acc).value >= acc
  {
    if specs != [] {
      var tail := specs[1..];
      PassesExactlyWhen(b.ev.prizeFloors, specs[0].position, specs[0].amount);
      ValidatedPrizes(b, tail, acc + specs[0].amount);
      assert SpecAmounts(specs)[1..] == SpecAmounts(tail);
      assert forall i :: 0 < i < |specs| ==> specs[i] == tail[i - 1];
    }
  }

  lemma PlaceOne(floors: seq<Floor>, rows: seq<Winner>, awards: map<U32, PrizeAward>, spec: WinnerSpec)
    requires PrizeRows(floors, rows, awards) && |rows| <= U32_MAX
    requires spec.position !in awards && spec.amount > 0 && MeetsFloor(floors, spec.position, spec.amount)
    ensures PrizeRows(floors, rows + [AwardRow(spec)],
                      awards[spec.position := PrizeAward(spec.recipient, |rows|, spec.reputationBump)])
  {
  }

  lemma NewRowSums(rows: seq<Winner>, w: Winner, a: Address)
    requires w.paidAt.None?
    ensures Sum(UnpaidAmounts(rows + [w])) == Sum(UnpaidAmounts(rows)) + w.amount
    ensures Sum(UnpaidMarks(rows + [w])) == Sum(UnpaidMarks(rows)) + 1
    ensures Sum(PaidAmounts(rows + [w], a)) == Sum(PaidAmounts(rows, a))
  {
    assert UnpaidAmounts(rows + [w]) == UnpaidAmounts(rows) + [w.amount];
    assert UnpaidMarks(rows + [w]) == UnpaidMarks(rows) + [1];
    assert PaidAmounts(rows + [w], a) == PaidAmounts(rows, a) + [0];
    SumAppend(UnpaidAmounts(rows), w.amount);
    SumAppend(UnpaidMarks(rows), 1);
    SumAppend(PaidAmounts(rows, a), 0);
  }

  /** The book after the first spec of a batch is placed. */
  function PlacedFirst(b: Book, specs: seq<WinnerSpec>): Book
    requires specs != [] && |b.rows| <= U32_MAX
  {
    b.(rows := b.rows + [AwardRow(specs[0])],
       prizes := b.prizes.(awards := b.prizes.awards[specs[0].position :=
         PrizeAward(specs[0].recipient, |b.rows|, specs[0].reputationBump)]))
  }

  /** Placing a batch writes rows and awards in step. */
  lemma {:induction false} PlacedPrizes(b: Book, specs: seq<WinnerSpec>)
    requires PrizeRows(b.ev.prizeFloors, b.rows, b.prizes.awards)
    requires Awardable(b.ev.prizeFloors, b.prizes.awards, specs) && DistinctPositions(specs)
    requires |b.rows| + |specs| <= U32_MAX + 1
    ensures PlacePrizes(b, specs, |b.rows|).Ok?
    ensures var b' := PlacePrizes(b, specs, |b.rows|).value;
            && b' == b.(rows := b'.rows, prizes := b.prizes.(awards := b'.prizes.awards))
            && b'.rows == AppendAwards(b.rows, specs)
            && PrizeRows(b.ev.prizeFloors, b'.rows, b'.prizes.awards)
    decreases |specs|
  {
    if specs != [] {
      var tail := specs[1..];
      PlaceOne(b.ev.prizeFloors, b.rows, b.prizes.awards, specs[0]);
      assert forall i :: 0 <= i < |tail| ==> tail[i] == specs[i + 1];
      PlacedPrizes(PlacedFirst(b, specs), tail);
    }
  }

  /** The new rows promise exactly the batch's amounts, and nothing is paid yet. */
  lemma {:induction false} PlacedSums(rows: seq<Winner>, specs: seq<WinnerSpec>, a: Address)
    requires |rows| + |specs| <= U32_MAX + 1
    ensures var rows' := AppendAwards(rows, specs);
            && Sum(UnpaidAmounts(rows')) == Sum(UnpaidAmounts(rows)) + Sum(SpecAmounts(specs))
            && Sum(UnpaidMarks(rows')) == Sum(UnpaidMarks(rows)) + |specs|
            && Sum(PaidAmounts(rows', a)) == Sum(PaidAmounts(rows, a))
    decreases |specs|
  {
    if specs != [] {
      NewRowSums(rows, AwardRow(specs[0]), a);
      PlacedSums(rows + [AwardRow(specs[0])], specs[1..], a);
      assert SpecAmounts(specs)[1..] == SpecAmounts(specs[1..]);
    }
  }

  lemma MarksWithinRows(rows: seq<Winner>)
    ensures 0 <= Sum(UnpaidMarks(rows)) <= |rows|
  {
    SumNonNegative(UnpaidMarks(rows));
    if rows != [] {
      MarksWithinRows(rows[1..]);
      assert UnpaidMarks(rows)[1..] == UnpaidMarks(rows[1..]);
    }
  }

  /** A batch is placed only if a u32 can index its last row. */
  lemma {:induction false} PlacedWithinIndex(b: Book, specs: seq<WinnerSpec>, anchor: nat)
    requires specs != []
    ensures PlacePrizes(b, specs, anchor).Ok? <==> anchor + |specs| <= U32_MAX + 1
    decreases |specs|
  {
    if anchor <= U32_MAX && |specs| > 1 {
      var award := PrizeAward(specs[0].recipient, anchor, specs[0].reputationBump);
      PlacedWithinIndex(b.(rows := AppendWinner(b.rows, AwardRow(specs[0])),
                           prizes := b.prizes.(awards := b.prizes.awards[specs[0].position := award])),
                        specs[1..], anchor + 1);
    }
  }

  /** What a selection writes, beside the fields it leaves alone. */
  lemma SelectedBook(b: Book, specs: seq<WinnerSpec>, now: U64, reserved: Book, placed: Book)
    requires |b.rows| <= U32_MAX && ValidatePrizes(b, specs, 0).Ok?
    requires reserved == b.(owed := SatAdd(ValidatePrizes(b, specs, 0).value, b.owed))
    requires PlacePrizes(reserved, specs, |b.rows|) == Ok(placed)
    ensures SelectPrizesStep(b, specs, now) == placed.(prizes := ExtendWindow(placed.prizes, |specs|, now))
  {
  }

  lemma SelectedRows(b: Book, specs: seq<WinnerSpec>, now: U64)
    requires PrizeRows(b.ev.prizeFloors, b.rows, b.prizes.awards) && |b.rows| <= U32_MAX
    requires |b.rows| + |specs| <= U32_MAX + 1
    requires DistinctPositions(specs) && ValidatePrizes(b, specs, 0).Ok?
    ensures var b' := SelectPrizesStep(b, specs, now);
            && b'.rows == AppendAwards(b.rows, specs)
            && PrizeRows(b.ev.prizeFloors, b'.rows, b'.prizes.awards)
            && b'.prizes.unclaimed == Min(U32_MAX, b.prizes.unclaimed + |specs|)
            && b'.owed == SatAdd(ValidatePrizes(b, specs, 0).value, b.owed)
  {
    ValidatedPrizes(b, specs, 0);
    var reserved := b.(owed := SatAdd(ValidatePrizes(b, specs, 0).value, b.owed));
    PlacedPrizes(reserved, specs);
    SelectedBook(b, specs, now, reserved, PlacePrizes(reserved, specs, |b.rows|).value);
  }

  lemma SelectedPrizes(b: Book, specs: seq<WinnerSpec>, now: U64)
    requires PrizeRows(b.ev.prizeFloors, b.rows, b.prizes.awards)
    requires b.owed >= 0 && SelectPrizesOk(b, specs, now) && |b.rows| <= U32_MAX
    ensures |b.rows| + |specs| <= U32_MAX + 1
    ensures var b' := SelectPrizesStep(b, specs, now);
            && b'.owed == b.owed + Sum(SpecAmounts(specs))
            && b.owed <= b'.owed <= b.ev.remainingEscrow
  {
    PlacedWithinIndex(b.(owed := SatAdd(ValidatePrizes(b, specs, 0).value, b.owed)), specs, WinnerCount(b.rows));
    SelectedRows(b, specs, now);
    ValidatedPrizes(b, specs, 0);
  }

  lemma SelectPrizesKeepsPrizes(b: Book, specs: seq<WinnerSpec>, now: U64)
    requires PrizeInv(b) && b.owed >= 0 && SelectPrizesOk(b, specs, now) && SelectPrizesFits(b, specs)
    ensures PrizeInv(SelectPrizesStep(b, specs, now))
  {
    SelectedPrizes(b, specs, now);
    SelectedRows(b, specs, now);
    SelectPrizesFrame(b, specs, now);
    MarksWithinRows(b.rows);
    PlacedSums(b.rows, specs, b.ev.owner);
    var b' := SelectPrizesStep(b, specs, now);
    forall a
      ensures PaidTo(b'.moves, a) == Sum(PaidAmounts(b'.rows, a))
    {
      PlacedSums(b.rows, specs, a);
    }
  }

  lemma {:induction false} PlaceFrame(b: Book, specs: seq<WinnerSpec>, anchor: nat)
    requires PlacePrizes(b, specs, anchor).Ok?
    ensures var b' := PlacePrizes(b, specs, anchor).value;
            b' == b.(rows := b'.rows, prizes := b.prizes.(awards := b'.prizes.awards))
    decreases |specs|
  {
    if specs != [] {
      var spec := specs[0];
      var award := PrizeAward(spec.recipient, anchor, spec.reputationBump);
      PlaceFrame(b.(rows := AppendWinner(b.rows, AwardRow(spec)),
                    prizes := b.prizes.(awards := b.prizes.awards[spec.position := award])), specs[1..], anchor + 1);
    }
  }

  lemma SelectPrizesFrame(b: Book, specs: seq<WinnerSpec>, now: U64)
    ensures var b' := SelectPrizesStep(b, specs, now);
            b' == b.(rows := b'.rows, prizes := b'.prizes, owed := b'.owed)
  {
    var total := ValidatePrizes(b, specs, 0);
    if total.Ok? {
      var reserved := b.(owed := SatAdd(total.value, b.owed));
      if PlacePrizes(reserved, specs, WinnerCount(b.rows)).Ok? {
        PlaceFrame(reserved, specs, WinnerCount(b.rows));
      }
    }
  }

  lemma SelectPrizesKeeps(b: Book, specs: seq<WinnerSpec>, now: U64)
    requires BookInv(b) && SelectPrizesOk(b, specs, now) && SelectPrizesFits(b, specs)
    ensures BookInv(SelectPrizesStep(b, specs, now))
  {
    SelectedPrizes(b, specs, now);
    SelectPrizesKeepsPrizes(b, specs, now);
    SelectPrizesFrame(b, specs, now);
    MoneyUnmoved(b, SelectPrizesStep(b, specs, now));
  }

  // ---- claim_prize ---------------------------------------------------------------------

  lemma PaidRowSums(rows: seq<Winner>, i: nat, now: U64, a: Address)
    requires i < |rows| && rows[i].paidAt.None?
    ensures var rows' := rows[i := rows[i].(milestone := None, paidAt := Some(now))];
            && Sum(UnpaidAmounts(rows')) == Sum(UnpaidAmounts(rows)) - rows[i].amount
            && Sum(UnpaidMarks(rows')) == Sum(UnpaidMarks(rows)) - 1
            && Sum(PaidAmounts(rows', a)) == Sum(PaidAmounts(rows, a))
                  + if rows[i].recipient == a then rows[i].amount else 0
  {
    var rows' := rows[i := rows[i].(milestone := None, paidAt := Some(now))];
    var paid := if rows[i].recipient == a then rows[i].amount else 0;
    assert UnpaidAmounts(rows') == UnpaidAmounts(rows)[i := 0];
    assert UnpaidMarks(rows') == UnpaidMarks(rows)[i := 0];
    assert PaidAmounts(rows', a) == PaidAmounts(rows, a)[i := paid];
    SumUpdate(UnpaidAmounts(rows), i, 0);
    SumUpdate(UnpaidMarks(rows), i, 0);
    SumUpdate(PaidAmounts(rows, a), i, paid);
  }

  lemma ClaimPrizeKeepsPrizes(b: Book, position: U32, now: U64)
    requires PrizeInv(b) && ClaimPrizeOk(b, position)
    ensures PrizeInv(ClaimPrizeStep(b, position, now))
  {
    var anchor := b.prizes.awards[position].anchorIdx;
    var row := b.rows[anchor];
    var b' := ClaimPrizeStep(b, position, now);
    Append(b.moves, Payout(row.recipient, row.amount));
    MarksWithinRows(b'.rows);
    forall a
      ensures PaidTo(b'.moves, a) == Sum(PaidAmounts(b'.rows, a))
    {
      PaidRowSums(b.rows, anchor, now, a);
    }
    PaidRowSums(b.rows, anchor, now, row.recipient);
  }

  lemma ClaimPrizeKeeps(b: Book, position: U32, now: U64)
    requires BookInv(b) && ClaimPrizeOk(b, position)
    ensures BookInv(ClaimPrizeStep(b, position, now))
  {
    var row := b.rows[b.prizes.awards[position].anchorIdx];
    ClaimPrizeKeepsPrizes(b, position, now);
    Append(b.moves, Payout(row.recipient, row.amount));
    MoneyPaid(b, ClaimPrizeStep(b, position, now), row.amount);
  }

  // ---- select_winners, grants ----------------------------------------------------------

  ghost function AwardAmounts(roster: map<Address, GrantAward>): map<Address, int> {
    map a | a in roster :: roster[a].amount
  }

  ghost predicate AllPay(kind: ReleaseKind, roster: map<Address, GrantAward>) {
    forall a :: a in roster ==> EveryMilestonePays(kind, roster[a].amount)
  }

  /** The roster a selection writes awards exactly the total it reserves. */
  lemma {:induction false} ValidatedGrants(ev: EventRecord, specs: seq<WinnerSpec>,
                                           roster: map<Address, GrantAward>, acc: I128)
    requires GrantKind(ev.releaseKind)
    requires AllPay(ev.releaseKind, roster) && MapSum(AwardAmounts(roster)) == acc
    requires ValidateGrants(ev, specs, roster, acc).Ok?
    ensures var (roster', total) := ValidateGrants(ev, specs, roster, acc).value;
            && AllPay(ev.releaseKind, roster') && MapSum(AwardAmounts(roster')) == total >= acc
    decreases |specs|
  {
    if specs != [] {
      var spec := specs[0];
      var entered := roster[spec.recipient := GrantAward(spec.position, spec.amount)];
      FloorsProperty(ev.releaseKind, spec.amount);
      assert AwardAmounts(entered) == AwardAmounts(roster)[spec.recipient := spec.amount];
      MapSumUpdate(AwardAmounts(roster), spec.recipient, spec.amount);
      ValidatedGrants(ev, specs[1..], entered, acc + spec.amount);
    }
  }

  lemma {:induction false} AwardsAppended(rows: seq<Winner>, specs: seq<WinnerSpec>)
    ensures |AppendAwards(rows, specs)| >= |rows|
    ensures specs != [] ==> AppendAwards(rows, specs) != []
    decreases |specs|
  {
    if specs != [] {
      AwardsAppended(AppendWinner(rows, AwardRow(specs[0])), specs[1..]);
    }
  }

  /** A fresh roster: nothing settled, nothing paid, everything outstanding. */
  lemma FreshRoster(kind: ReleaseKind, roster: map<Address, GrantAward>, flags: map<Address, set<U32>>,
                    progress: map<Address, GrantProgress>, moves: seq<Move>)
    requires GrantKind(kind) && AllPay(kind, roster)
    requires RosterInv(kind, map[], flags, progress, moves)
    ensures RosterInv(kind, roster, flags, progress, moves)
  {
    forall a | a in roster
      ensures RecipientInv(kind, roster[a].amount, FlagsOf(flags, a), ProgressOf(progress, a), PaidTo(moves, a))
    {
      assert FlagsOf(flags, a) == {} && ProgressOf(progress, a) == GrantProgress(0, 0) && PaidTo(moves, a) == 0;
      FloorsProperty(kind, roster[a].amount);
      TracksNothing(kind, roster[a].amount);
    }
  }

  lemma FreshSums(roster: map<Address, GrantAward>, progress: map<Address, GrantProgress>, moves: seq<Move>)
    requires forall a :: ProgressOf(progress, a) == GrantProgress(0, 0) && PaidTo(moves, a) == 0
    ensures Outstanding(roster, progress) == AwardAmounts(roster)
    ensures MapSum(Withheld(roster, progress, moves)) == 0
  {
    MapSumNonNegative(Withheld(roster, progress, moves));
  }

  lemma SelectGrantsKeepsGrant(b: Book, specs: seq<WinnerSpec>)
    requires GrantInv(b) && SelectGrantsOk(b, specs)
    ensures GrantInv(SelectGrantsStep(b, specs))
    ensures 0 <= SelectGrantsStep(b, specs).owed <= b.ev.remainingEscrow
  {
    var (roster, total) := ValidateGrants(b.ev, specs, map[], 0).value;
    assert AwardAmounts(map[]) == map[];
    ValidatedGrants(b.ev, specs, map[], 0);
    AwardsAppended(b.rows, specs);
    FreshRoster(b.ev.releaseKind, roster, b.flags, b.progress, b.moves);
    FreshSums(roster, b.progress, b.moves);
  }

  lemma SelectGrantsKeeps(b: Book, specs: seq<WinnerSpec>)
    requires BookInv(b) && SelectGrantsOk(b, specs)
    ensures BookInv(SelectGrantsStep(b, specs))
  {
    SelectGrantsKeepsGrant(b, specs);
    MoneyUnmoved(b, SelectGrantsStep(b, specs));
  }

  // ---- claim_milestone and forfeit_milestone, grants -----------------------------------

  /** One settlement keeps every recipient's progress exact, the settled one's included. */
  lemma SettledRoster(kind: ReleaseKind, roster: map<Address, GrantAward>, flags: map<Address, set<U32>>,
                      progress: map<Address, GrantProgress>, moves: seq<Move>, moves': seq<Move>,
                      r: Address, m: U32, p: GrantProgress, paid: int)
    requires RosterInv(kind, roster, flags, progress, moves) && r in roster
    requires forall a :: PaidTo(moves', a) == PaidTo(moves, a) + if a == r then paid else 0
    requires RecipientInv(kind, roster[r].amount, FlagsOf(flags, r) + {m}, p, PaidTo(moves, r) + paid)
    ensures RosterInv(kind, roster, Flag(flags, r, m), progress[r := p], moves')
  {
    var flags', progress' := Flag(flags, r, m), progress[r := p];
    forall a | a in roster
      ensures RecipientInv(kind, roster[a].amount, FlagsOf(flags', a), ProgressOf(progress', a), PaidTo(moves', a))
    {
      if a == r {
        assert FlagsOf(flags', r) == FlagsOf(flags, r) + {m} && ProgressOf(progress', r) == p;
      } else {
        assert FlagsOf(flags', a) == FlagsOf(flags, a) && ProgressOf(progress', a) == ProgressOf(progress, a);
      }
    }
  }

  lemma SettledOutstanding(roster: map<Address, GrantAward>, progress: map<Address, GrantProgress>,
                           r: Address, p: GrantProgress, amount: int)
    requires r in roster && p.settledAmount == ProgressOf(progress, r).settledAmount + amount
    ensures MapSum(Outstanding(roster, progress[r := p])) == MapSum(Outstanding(roster, progress)) - amount
  {
    var o := Outstanding(roster, progress);
    assert Outstanding(roster, progress[r := p]) == o[r := o[r] - amount];
    MapSumUpdate(o, r, o[r] - amount);
  }

  lemma SettledForfeits(roster: map<Address, GrantAward>, progress: map<Address, GrantProgress>,
                        moves: seq<Move>, moves': seq<Move>, r: Address, p: GrantProgress, amount: int, paid: int)
    requires r in roster && p.settledAmount == ProgressOf(progress, r).settledAmount + amount
    requires forall a :: PaidTo(moves', a) == PaidTo(moves, a) + if a == r then paid else 0
    ensures MapSum(Withheld(roster, progress[r := p], moves'))
          == MapSum(Withheld(roster, progress, moves)) + amount - paid
  {
    var f := Withheld(roster, progress, moves);
    assert Withheld(roster, progress[r := p], moves') == f[r := f[r] + amount - paid];
    MapSumUpdate(f, r, f[r] + amount - paid);
  }

  /** The share a grant settlement is worth, and what its record becomes. */
  lemma SettlementShare(b: Book, r: Address, m: U32)
    requires GrantInv(b) && SettleOk(b, r, m)
    ensures b.roster.Some? && r in b.roster.value
    ensures var amount := GrantShare(b, r, m).value; var p := ProgressOf(b.progress, r);
            && Tracks(b.ev.releaseKind, b.roster.value[r].amount, FlagsOf(b.flags, r) + {m}, Advance(p, amount))
            && Advance(p, amount).settledAmount == p.settledAmount + amount
  {
    SettleOne(b.ev.releaseKind, b.roster.value[r].amount, FlagsOf(b.flags, r), ProgressOf(b.progress, r),
              b.roster.value[r].position, m);
  }

  lemma ForfeitsNonNegative(b: Book)
    requires GrantInv(b) && b.roster.Some?
    ensures var f := Withheld(b.roster.value, b.progress, b.moves);
            && MapSum(f) >= 0
            && (MapSum(f) == 0 ==> forall a :: a in f ==> f[a] == 0)
    ensures var o := Outstanding(b.roster.value, b.progress);
            && MapSum(o) >= 0
            && (MapSum(o) == 0 ==> forall a :: a in o ==> o[a] == 0)
  {
    var o := Outstanding(b.roster.value, b.progress);
    forall a | a in o
      ensures o[a] >= 0
    {
      TracksBounds(b.ev.releaseKind, b.roster.value[a].amount, FlagsOf(b.flags, a), ProgressOf(b.progress, a));
    }
    MapSumNonNegative(Withheld(b.roster.value, b.progress, b.moves));
    MapSumNonNegative(o);
  }

  /** What a settlement does to the records, whether or not it pays. */
  lemma SettledRecords(b: Book, r: Address, m: U32, b': Book, paid: int)
    requires GrantInv(b) && SettleOk(b, r, m)
    requires paid == 0 || paid == GrantShare(b, r, m).value
    requires forall a :: PaidTo(b'.moves, a) == PaidTo(b.moves, a) + if a == r then paid else 0
    requires b'.flags == RecordSettlement(b, r, m, GrantShare(b, r, m).value).flags
    requires b'.progress == RecordSettlement(b, r, m, GrantShare(b, r, m).value).progress
    ensures b.roster.Some?
    ensures var amount := GrantShare(b, r, m).value;
            && RosterInv(b.ev.releaseKind, b.roster.value, b'.flags, b'.progress, b'.moves)
            && MapSum(Outstanding(b.roster.value, b'.progress)) == b.owed - amount
            && 0 <= MapSum(Withheld(b.roster.value, b'.progress, b'.moves))
               <= b.ev.remainingEscrow - b.owed + amount - paid
  {
    SettlementShare(b, r, m);
    ForfeitsNonNegative(b);
    var amount := GrantShare(b, r, m).value;
    var p := Advance(ProgressOf(b.progress, r), amount);
    SettledRoster(b.ev.releaseKind, b.roster.value, b.flags, b.progress, b.moves, b'.moves, r, m, p, paid);
    SettledOutstanding(b.roster.value, b.progress, r, p, amount);
    SettledForfeits(b.roster.value, b.progress, b.moves, b'.moves, r, p, amount, paid);
  }

  /** What a forfeit writes. */
  lemma ForfeitedFields(b: Book, r: Address, m: U32)
    requires SettleOk(b, r, m)
    ensures var amount := GrantShare(b, r, m).value; var b' := ForfeitGrantStep(b, r, m);
            && b'.owed == b.owed - amount >= 0
            && b'.flags == RecordSettlement(b, r, m, amount).flags
            && b'.progress == RecordSettlement(b, r, m, amount).progress
            && b' == b.(owed := b'.owed, flags := b'.flags, progress := b'.progress)
  {
  }

  lemma ForfeitedGrantInv(b: Book, b': Book)
    requires GrantInv(b) && b.ev.status.Active? && b.roster.Some?
    requires b' == b.(owed := b'.owed, flags := b'.flags, progress := b'.progress)
    requires SettledInv(b, b') && b'.owed >= 0
    ensures GrantInv(b') && b'.owed <= b.ev.remainingEscrow
  {
  }

  lemma ForfeitGrantKeepsGrant(b: Book, r: Address, m: U32)
    requires GrantInv(b) && SettleOk(b, r, m)
    ensures GrantInv(ForfeitGrantStep(b, r, m))
    ensures 0 <= ForfeitGrantStep(b, r, m).owed <= b.ev.remainingEscrow
  {
    var b' := ForfeitGrantStep(b, r, m);
    ForfeitedFields(b, r, m);
    SettledRecords(b, r, m, b', 0);
    ForfeitedGrantInv(b, b');
  }

  lemma ForfeitGrantKeeps(b: Book, r: Address, m: U32)
    requires BookInv(b) && SettleOk(b, r, m)
    ensures BookInv(ForfeitGrantStep(b, r, m))
  {
    ForfeitGrantKeepsGrant(b, r, m);
    MoneyUnmoved(b, ForfeitGrantStep(b, r, m));
  }

  lemma OutstandingNonNegative(b: Book)
    requires b.roster.Some?
    requires RosterInv(b.ev.releaseKind, b.roster.value, b.flags, b.progress, b.moves)
    ensures forall a :: a in b.roster.value ==> Outstanding(b.roster.value, b.progress)[a] >= 0
    ensures forall a :: a in b.roster.value ==> Withheld(b.roster.value, b.progress, b.moves)[a] >= 0
  {
    forall a | a in b.roster.value
      ensures Outstanding(b.roster.value, b.progress)[a] >= 0
    {
      TracksBounds(b.ev.releaseKind, b.roster.value[a].amount, FlagsOf(b.flags, a), ProgressOf(b.progress, a));
    }
  }

  lemma NothingOutstanding(b: Book)
    requires b.roster.Some?
    requires forall a :: a in b.roster.value ==> Outstanding(b.roster.value, b.progress)[a] >= 0
    requires MapSum(Outstanding(b.roster.value, b.progress)) == 0
    ensures FullySettled(b)
  {
    var o := Outstanding(b.roster.value, b.progress);
    MapSumNonNegative(o);
    forall a | a in b.roster.value
      ensures ProgressOf(b.progress, a).settledAmount == b.roster.value[a].amount
    {
      assert a in o && o[a] == 0;
    }
  }

  lemma NothingForfeited(b: Book)
    requires b.roster.Some? && FullySettled(b)
    requires forall a :: a in b.roster.value ==> Withheld(b.roster.value, b.progress, b.moves)[a] >= 0
    requires MapSum(Withheld(b.roster.value, b.progress, b.moves)) == 0
    ensures FullyPaid(b)
  {
    var f := Withheld(b.roster.value, b.progress, b.moves);
    MapSumNonNegative(f);
    forall a | a in b.roster.value
      ensures PaidTo(b.moves, a) == b.roster.value[a].amount
    {
      assert a in f && f[a] == 0;
    }
  }

  /** With nothing owed and nothing withheld, every award is settled and paid in full. */
  lemma NothingLeft(b: Book)
    requires b.roster.Some?
    requires RosterInv(b.ev.releaseKind, b.roster.value, b.flags, b.progress, b.moves)
    requires MapSum(Outstanding(b.roster.value, b.progress)) == 0
    ensures FullySettled(b)
    ensures MapSum(Withheld(b.roster.value, b.progress, b.moves)) == 0 ==> FullyPaid(b)
  {
    OutstandingNonNegative(b);
    NothingOutstanding(b);
    if MapSum(Withheld(b.roster.value, b.progress, b.moves)) == 0 {
      NothingForfeited(b);
    }
  }

  /** What a paid settlement writes. */
  lemma ClaimedGrant(b: Book, r: Address, m: U32, now: U64)
    requires ClaimGrantOk(b, r, m) && b.roster.Some?
    ensures var amount := GrantShare(b, r, m).value;
            var b' := ClaimGrantStep(b, r, m, now);
            && b'.ev == Spend(b.ev, amount)
            && b'.owed == b.owed - amount >= 0
            && b'.rows != []
            && b'.flags == RecordSettlement(b, r, m, amount).flags
            && b'.progress == RecordSettlement(b, r, m, amount).progress
            && b' == b.(ev := b'.ev, owed := b'.owed, rows := b'.rows, flags := b'.flags, progress := b'.progress,
                        moves := b.moves + [Payout(r, amount)])
  {
  }

  /** The fields a paid settlement leaves alone, and the escrow it draws on. */
  ghost predicate PaidFields(b: Book, b': Book, amount: I128) {
    && b.roster.Some? && 0 < amount <= b.ev.remainingEscrow
    && b'.ev == Spend(b.ev, amount) && b'.owed == b.owed - amount >= 0
    && b'.prizes == b.prizes && b'.campaignClaimed == b.campaignClaimed && b'.roster == b.roster
    && b'.roll == b.roll && b'.nonOwnerTotal == b.nonOwnerTotal && b'.cancel == b.cancel && b'.held == b.held
    && b'.rows != []
  }

  /** The records after a settlement, beside what is still owed. */
  ghost predicate SettledInv(b: Book, b': Book)
    requires b.roster.Some?
  {
    && RosterInv(b.ev.releaseKind, b.roster.value, b'.flags, b'.progress, b'.moves)
    && MapSum(Outstanding(b.roster.value, b'.progress)) == b'.owed
    && 0 <= MapSum(Withheld(b.roster.value, b'.progress, b'.moves)) <= b'.ev.remainingEscrow - b'.owed
  }

  lemma PaidGrantInv(b: Book, b': Book, amount: I128)
    requires GrantInv(b) && b.ev.status.Active? && PaidFields(b, b', amount) && SettledInv(b, b')
    ensures GrantInv(b')
    ensures 0 <= b'.owed <= b'.ev.remainingEscrow
  {
    if b'.ev.remainingEscrow == 0 {
      NothingLeft(b');
    }
  }

  lemma ClaimedFields(b: Book, r: Address, m: U32, now: U64)
    requires ClaimGrantOk(b, r, m)
    ensures PaidFields(b, ClaimGrantStep(b, r, m, now), GrantShare(b, r, m).value)
    ensures ClaimGrantStep(b, r, m, now).ev.remainingEscrow == b.ev.remainingEscrow - GrantShare(b, r, m).value
  {
    ClaimedGrant(b, r, m, now);
  }

  lemma ClaimedRecords(b: Book, r: Address, m: U32, b': Book, amount: I128)
    requires GrantInv(b) && SettleOk(b, r, m) && amount == GrantShare(b, r, m).value
    requires forall a :: PaidTo(b'.moves, a) == PaidTo(b.moves, a) + if a == r then amount else 0
    requires b'.flags == RecordSettlement(b, r, m, amount).flags
    requires b'.progress == RecordSettlement(b, r, m, amount).progress
    requires b'.owed == b.owed - amount
    requires b'.ev.remainingEscrow == b.ev.remainingEscrow - amount
    ensures b.roster.Some? && SettledInv(b, b')
  {
    SettledRecords(b, r, m, b', amount);
  }

  lemma OnePayout(moves: seq<Move>, moves': seq<Move>, r: Address, amount: I128)
    requires moves' == moves + [Payout(r, amount)]
    ensures forall a :: PaidTo(moves', a) == PaidTo(moves, a) + if a == r then amount else 0
    ensures forall a :: RefundedTo(moves', a) == RefundedTo(moves, a)
    ensures Net(moves') == Net(moves) - amount
  {
    Append(moves, Payout(r, amount));
  }

  lemma ClaimGrantKeepsGrant(b: Book, r: Address, m: U32, now: U64)
    requires GrantInv(b) && ClaimGrantOk(b, r, m)
    ensures GrantInv(ClaimGrantStep(b, r, m, now))
    ensures ClaimGrantStep(b, r, m, now).owed <= ClaimGrantStep(b, r, m, now).ev.remainingEscrow
  {
    var amount := GrantShare(b, r, m).value;
    var b' := ClaimGrantStep(b, r, m, now);
    ClaimedFields(b, r, m, now);
    ClaimedGrant(b, r, m, now);
    OnePayout(b.moves, b'.moves, r, amount);
    ClaimedRecords(b, r, m, b', amount);
    PaidGrantInv(b, b', amount);
  }

  lemma ClaimGrantKeeps(b: Book, r: Address, m: U32, now: U64)
    requires BookInv(b) && ClaimGrantOk(b, r, m)
    ensures BookInv(ClaimGrantStep(b, r, m, now))
  {
    var b' := ClaimGrantStep(b, r, m, now);
    ClaimGrantKeepsGrant(b, r, m, now);
    ClaimedFields(b, r, m, now);
    ClaimedGrant(b, r, m, now);
    OnePayout(b.moves, b'.moves, r, GrantShare(b, r, m).value);
    MoneyPaid(b, b', GrantShare(b, r, m).value);
  }

  // ---- claim_milestone, campaigns ------------------------------------------------------

  lemma ClaimCampaignKeepsCampaign(b: Book, m: U32, fee: I128, now: U64)
    requires CampaignInv(b) && ClaimCampaignOk(b, m, fee)
    ensures CampaignInv(ClaimCampaignStep(b, m, fee, now))
  {
    var n := b.ev.releaseKind.n;
    var done := FlagsOf(b.flags, b.ev.owner);
    Pigeonhole(done, n);
    Pigeonhole(done + {m}, n);
    ReleasePaysExactlyWhen(b.ev.remainingEscrow, n - b.campaignClaimed);
    var b' := ClaimCampaignStep(b, m, fee, now);
    assert FlagsOf(b'.flags, b.ev.owner) == done + {m};
    forall a | a != b.ev.owner
      ensures FlagsOf(b'.flags, a) == {}
    {
      assert FlagsOf(b.flags, a) == {};
    }
  }

  lemma ClaimCampaignKeeps(b: Book, m: U32, fee: I128, now: U64)
    requires BookInv(b) && ClaimCampaignOk(b, m, fee)
    ensures BookInv(ClaimCampaignStep(b, m, fee, now))
  {
    ClaimCampaignKeepsCampaign(b, m, fee, now);
    AppendRelease(b.moves, b.ev.owner, CampaignAmount(b, b.ev.releaseKind.n).value, fee);
    MoneyPaid(b, ClaimCampaignStep(b, m, fee, now), CampaignAmount(b, b.ev.releaseKind.n).value);
  }

  // ---- cancellation --------------------------------------------------------------------

  /** Closing an event, and everything after it, leaves awards and payouts as they were. */
  ghost predicate AwardsUnmoved(b: Book, b': Book) {
    && b'.rows == b.rows && b'.prizes == b.prizes && b'.roster == b.roster && b'.progress == b.progress
    && b'.flags == b.flags && b'.campaignClaimed == b.campaignClaimed && b'.owed == 0
    && b'.ev == b.ev.(status := b'.ev.status, remainingEscrow := b'.ev.remainingEscrow)
    && (b'.ev.status.Cancelling? || b'.ev.status.Cancelled?)
    && forall a :: PaidTo(b'.moves, a) == PaidTo(b.moves, a)
  }

  lemma ClosedPillar(b: Book, b': Book)
    requires PillarInv(b) && AwardsUnmoved(b, b')
    requires b.ev.pillar.Grant? && b.roster.Some? ==> FullySettled(b)
    ensures PillarInv(b')
  {
    if b.ev.pillar.Grant? {
      FundedRoster(b.ev.releaseKind, if b.roster.Some? then b.roster.value else map[], b.flags, b.progress,
            b.moves, b'.moves);
    }
  }

  lemma ClosedGrant(b: Book)
    requires PillarInv(b) && b.ev.pillar.Grant? && b.roster.Some?
    requires b.ev.status.Active? ==> b.owed <= 0
    ensures FullySettled(b)
  {
    if b.ev.status.Active? {
      ForfeitsNonNegative(b);
      NothingLeft(b);
    }
  }

  /** The three ways a cancellation can start. */
  lemma CancelToOwner(b: Book)
    requires MoneyInv(b) && StartCancelOk(b) && b.nonOwnerTotal.value <= 0
    ensures MoneyInv(StartCancelStep(b))
    ensures forall a :: PaidTo(StartCancelStep(b).moves, a) == PaidTo(b.moves, a)
  {
    Append(b.moves, Residual(b.ev.remainingEscrow));
    assert b.moves + [] == b.moves;
  }

  lemma CancellingTerms(b: Book)
    requires MoneyInv(b) && StartCancelOk(b) && b.nonOwnerTotal.value > 0
    ensures var st := StartCancelStep(b).cancel;
            && st == Some(CancellationState(b.nonOwnerTotal.value, b.ev.remainingEscrow, |b.roll.list|, 0,
                                            BranchFor(b.ev.remainingEscrow, b.nonOwnerTotal.value)))
            && ValidTerms(st.value)
            && Sum(Shares(st.value, Amounts(b.roll))) + OwnerResidual(st.value) <= st.value.remainingAtStart
            && (st.value.branch.FullPartnerThenResidual? ==>
                  Sum(Shares(st.value, Amounts(b.roll))) + OwnerResidual(st.value) == st.value.remainingAtStart)
  {
    var st := CancellationState(b.nonOwnerTotal.value, b.ev.remainingEscrow, |b.roll.list|, 0,
                                BranchFor(b.ev.remainingEscrow, b.nonOwnerTotal.value));
    AmountsNonNegative(b.roll, b.ev.owner);
    if st.branch.FullPartnerThenResidual? {
      FullRefundsUseTheEscrow(st, Amounts(b.roll));
    } else {
      ProRataWithinEscrow(st, Amounts(b.roll));
    }
  }

  lemma CancelToContributors(b: Book)
    requires MoneyInv(b) && StartCancelOk(b) && b.nonOwnerTotal.value > 0
    ensures MoneyInv(StartCancelStep(b))
    ensures StartCancelStep(b).moves == b.moves
  {
    CancellingTerms(b);
    var b' := StartCancelStep(b);
    assert Dust(b')
          == b.ev.remainingEscrow - Sum(Shares(b'.cancel.value, Amounts(b.roll))) - OwnerResidual(b'.cancel.value);
  }

  lemma StartCancelKeepsMoney(b: Book)
    requires MoneyInv(b) && StartCancelOk(b)
    ensures MoneyInv(StartCancelStep(b))
    ensures forall a :: PaidTo(StartCancelStep(b).moves, a) == PaidTo(b.moves, a)
  {
    if b.nonOwnerTotal.value <= 0 {
      CancelToOwner(b);
    } else {
      CancelToContributors(b);
    }
  }

  lemma StartCancelFrame(b: Book)
    requires StartCancelOk(b)
    ensures var b' := StartCancelStep(b);
            && b' == b.(ev := b'.ev, owed := 0, nonOwnerTotal := b'.nonOwnerTotal, cancel := b'.cancel,
                  moves := b'.moves)
            && b'.ev == b.ev.(status := b'.ev.status, remainingEscrow := b'.ev.remainingEscrow)
            && (b'.ev.status.Cancelling? || b'.ev.status.Cancelled?)
  {
  }

  lemma StartCancelKeeps(b: Book)
    requires BookInv(b) && StartCancelOk(b)
    ensures BookInv(StartCancelStep(b))
  {
    StartCancelKeepsMoney(b);
    StartCancelFrame(b);
    if b.ev.pillar.Grant? && b.roster.Some? {
      ClosedGrant(b);
    }
    ClosedPillar(b, StartCancelStep(b));
  }

  /** Clearing a slot takes its share, and only its share, out of the pending refunds. */
  lemma ClearedAmounts(r: Roll, owner: Address, i: nat)
    requires RollInv(r, owner) && i < |r.list|
    ensures RollInv(Changed(r, r.list[i], 0), owner)
    ensures Amounts(Changed(r, r.list[i], 0)) == Amounts(r)[i := 0]
    ensures Sum(Amounts(r)[i := 0]) <= Sum(Amounts(r))
  {
    RollChange(r, owner, r.list[i], 0);
    SumUpdate(Amounts(r), i, 0);
  }

  lemma ClearedShares(st: CancellationState, st': CancellationState, xs: seq<I128>, i: nat)
    requires ValidTerms(st) && st' == st.(nextIdx := st'.nextIdx) && i < |xs| && xs[i] >= 0
    ensures Sum(Shares(st', xs[i := 0])) == Sum(Shares(st, xs)) - RefundShare(st, xs[i])
    ensures RefundShare(st, xs[i]) >= 0
  {
    ShareBounds(st, 0);
    ShareBounds(st, xs[i]);
    assert Shares(st', xs[i := 0]) == Shares(st, xs)[i := 0];
    SumUpdate(Shares(st, xs), i, 0);
  }

  /** What one slot of the crank writes. */
  lemma CrankedBook(b: Book, accepted: bool, c: Address, payout: I128)
    requires MoreSlots(b) && b.cancel.value.nextIdx < |b.roll.list| && c == b.roll.list[b.cancel.value.nextIdx]
    requires AmountOf(b.roll, c) > 0 && c !in b.held
    requires payout == RefundShare(b.cancel.value, AmountOf(b.roll, c)) >= 0
    ensures CrankSlot(b, accepted) == CrankedTo(b, accepted, c, payout)
  {
  }

  function CrankedTo(b: Book, accepted: bool, c: Address, payout: I128): Book
    requires MoreSlots(b)
  {
    var st := b.cancel.value;
    b.(cancel := Some(st.(nextIdx := st.nextIdx + 1)), roll := Changed(b.roll, c, 0),
       moves := if payout > 0 && accepted then b.moves + [Refund(c, payout)] else b.moves,
       held := if payout > 0 && !accepted then b.held[c := payout] else b.held)
  }

  /** The contributor and the share of the next slot. */
  ghost predicate NextSlot(b: Book, c: Address, payout: I128) {
    && b.ev.status.Cancelling? && MoreSlots(b) && b.cancel.value.nextIdx < |b.roll.list|
    && c == b.roll.list[b.cancel.value.nextIdx]
    && payout == RefundShare(b.cancel.value, AmountOf(b.roll, c)) >= 0
  }

  lemma NextSlotExists(b: Book) returns (c: Address, payout: I128)
    requires MoneyInv(b) && b.ev.status.Cancelling? && MoreSlots(b)
    ensures NextSlot(b, c, payout) && AmountOf(b.roll, c) > 0 && Unrefunded(b, c)
  {
    c := b.roll.list[b.cancel.value.nextIdx];
    ShareBounds(b.cancel.value, AmountOf(b.roll, c));
    payout := RefundShare(b.cancel.value, AmountOf(b.roll, c));
  }

  lemma CrankedNet(b: Book, accepted: bool, c: Address, payout: I128)
    requires MoreSlots(b) && payout >= 0 && c !in b.held
    ensures var b' := CrankedTo(b, accepted, c, payout);
            Net(b'.moves) - MapSum(b'.held) == Net(b.moves) - MapSum(b.held) - payout
  {
    if payout > 0 {
      if accepted {
        Append(b.moves, Refund(c, payout));
      } else {
        MapSumUpdate(b.held, c, payout);
      }
    }
  }

  lemma OneRefund(moves: seq<Move>, c: Address, amount: I128)
    ensures forall a :: PaidTo(moves + [Refund(c, amount)], a) == PaidTo(moves, a)
    ensures forall a :: RefundedTo(moves + [Refund(c, amount)], a) == RefundedTo(moves, a)
              + if a == c then amount else 0
  {
    Append(moves, Refund(c, amount));
  }

  /** A cranked share reaches its contributor, paid or held, and nobody else. */
  lemma CrankedFlows(b: Book, accepted: bool, c: Address, payout: I128)
    requires MoreSlots(b) && payout >= 0 && c !in b.held
    ensures var b' := CrankedTo(b, accepted, c, payout);
            && (forall a :: PaidTo(b'.moves, a) == PaidTo(b.moves, a))
            && (forall a :: a != c ==> RefundedTo(b'.moves, a) == RefundedTo(b.moves, a))
            && RefundedTo(b'.moves, c) + HeldOf(b'.held, c) == RefundedTo(b.moves, c) + payout
  {
    var b' := CrankedTo(b, accepted, c, payout);
    if payout > 0 && accepted {
      OneRefund(b.moves, c, payout);
      assert b'.moves == b.moves + [Refund(c, payout)] && HeldOf(b'.held, c) == 0;
    } else {
      assert b'.moves == b.moves && HeldOf(b'.held, c) == payout;
    }
  }

  lemma CrankedPending(b: Book, accepted: bool, c: Address, payout: I128)
    requires RollInv(b.roll, b.ev.owner) && b.cancel.Some? && ValidTerms(b.cancel.value) && NextSlot(b, c, payout)
    ensures PendingRefunds(CrankedTo(b, accepted, c, payout)) == PendingRefunds(b) - payout
  {
    var st := b.cancel.value;
    ClearedAmounts(b.roll, b.ev.owner, st.nextIdx);
    ClearedShares(st, st.(nextIdx := st.nextIdx + 1), Amounts(b.roll), st.nextIdx);
  }

  lemma CrankedDust(b: Book, accepted: bool, c: Address, payout: I128)
    requires RollInv(b.roll, b.ev.owner) && b.cancel.Some? && ValidTerms(b.cancel.value)
    requires NextSlot(b, c, payout) && c !in b.held
    ensures Dust(CrankedTo(b, accepted, c, payout)) == Dust(b)
  {
    CrankedNet(b, accepted, c, payout);
    CrankedPending(b, accepted, c, payout);
    SameDust(b, CrankedTo(b, accepted, c, payout), payout);
  }

  lemma SameDust(b: Book, b': Book, payout: int)
    requires b.ev.status.Cancelling? && b'.ev == b.ev && b.cancel.Some? && b'.cancel.Some?
    requires b'.cancel.value == b.cancel.value.(nextIdx := b'.cancel.value.nextIdx)
    requires Net(b'.moves) - MapSum(b'.held) == Net(b.moves) - MapSum(b.held) - payout
    requires PendingRefunds(b') == PendingRefunds(b) - payout
    ensures Dust(b') == Dust(b)
  {
  }

  lemma CrankedSlots(b: Book, accepted: bool, c: Address, payout: I128)
    requires RollInv(b.roll, b.ev.owner) && SlotsInv(b) && NextSlot(b, c, payout) && c !in b.held
    ensures SlotsInv(CrankedTo(b, accepted, c, payout))
  {
    var b' := CrankedTo(b, accepted, c, payout);
    CrankedFlows(b, accepted, c, payout);
    forall i | 0 <= i < |b.roll.list|
      ensures if i < b'.cancel.value.nextIdx then AmountOf(b'.roll, b.roll.list[i]) == 0
              else AmountOf(b'.roll, b.roll.list[i]) > 0 && Unrefunded(b', b.roll.list[i])
    {
      if i >= b'.cancel.value.nextIdx {
        assert b.roll.slot[b.roll.list[i]] == i + 1;
        assert Unrefunded(b, b.roll.list[i]);
      }
    }
  }

  lemma CrankedTotal(b: Book, accepted: bool, c: Address, payout: I128)
    requires RollInv(b.roll, b.ev.owner) && NextSlot(b, c, payout)
    ensures var r := CrankedTo(b, accepted, c, payout).roll;
            RollInv(r, b.ev.owner) && Sum(Amounts(r)) <= Sum(Amounts(b.roll)) && r.slot == b.roll.slot && c in r.slot
  {
    ClearedAmounts(b.roll, b.ev.owner, b.cancel.value.nextIdx);
  }

  lemma CrankedTerms(b: Book, accepted: bool, c: Address, payout: I128)
    requires CancellingInv(b) && NextSlot(b, c, payout)
    requires SlotsInv(CrankedTo(b, accepted, c, payout))
    requires Dust(CrankedTo(b, accepted, c, payout)) == Dust(b)
    requires Sum(Amounts(CrankedTo(b, accepted, c, payout).roll)) <= Sum(Amounts(b.roll))
    ensures CancellingInv(CrankedTo(b, accepted, c, payout))
  {
  }

  lemma CrankedHeld(b: Book, accepted: bool, c: Address, payout: I128)
    requires MoneyInv(b) && NextSlot(b, c, payout) && c in b.roll.slot
    ensures var b' := CrankedTo(b, accepted, c, payout);
            forall a :: a in b'.held ==> a in b.roll.slot && b'.held[a] > 0
  {
  }

  lemma CrankedMoney(b: Book, accepted: bool, c: Address, payout: I128)
    requires RollInv(b.roll, b.ev.owner) && MoneyInv(b) && NextSlot(b, c, payout) && c !in b.held
    ensures MoneyInv(CrankedTo(b, accepted, c, payout))
  {
    CrankedDust(b, accepted, c, payout);
    CrankedSlots(b, accepted, c, payout);
    CrankedTotal(b, accepted, c, payout);
    CrankedTerms(b, accepted, c, payout);
    CrankedHeld(b, accepted, c, payout);
    var b' := CrankedTo(b, accepted, c, payout);
    assert b'.roll.slot == b.roll.slot;
    assert b'.ev == b.ev;
  }

  lemma CrankedPillar(b: Book, accepted: bool, c: Address, payout: I128)
    requires BookInv(b) && NextSlot(b, c, payout) && c !in b.held
    ensures PillarInv(CrankedTo(b, accepted, c, payout))
  {
    CrankedFlows(b, accepted, c, payout);
    ClosedPillar(b, CrankedTo(b, accepted, c, payout));
  }

  /** One slot of the crank keeps the invariant, and the dust. */
  lemma CrankSlotKeeps(b: Book, accepted: bool)
    requires BookInv(b) && b.ev.status.Cancelling? && MoreSlots(b)
    ensures BookInv(CrankSlot(b, accepted)) && CrankSlot(b, accepted).ev == b.ev
    ensures Dust(CrankSlot(b, accepted)) == Dust(b)
  {
    var c, payout := NextSlotExists(b);
    CrankedBook(b, accepted, c, payout);
    CrankedMoney(b, accepted, c, payout);
    CrankedTotal(b, accepted, c, payout);
    CrankedDust(b, accepted, c, payout);
    CrankedPillar(b, accepted, c, payout);
  }

  lemma {:induction false} CrankKeeps(b: Book, accepted: seq<bool>)
    requires BookInv(b) && b.ev.status.Cancelling?
    ensures BookInv(CrankAll(b, accepted)) && CrankAll(b, accepted).ev == b.ev
    ensures Dust(CrankAll(b, accepted)) == Dust(b)
    decreases |accepted|
  {
    if accepted != [] && MoreSlots(b) {
      CrankSlotKeeps(b, accepted[0]);
      CrankKeeps(CrankSlot(b, accepted[0]), accepted[1..]);
    }
  }

  // ---- finalize_cancel and claim_refund ------------------------------------------------

  lemma NothingPending(b: Book)
    requires MoneyInv(b) && FinalizeOk(b)
    ensures PendingRefunds(b) == 0
  {
    var xs := Shares(b.cancel.value, Amounts(b.roll));
    ShareBounds(b.cancel.value, 0);
    forall i | 0 <= i < |xs|
      ensures xs[i] == 0
    {
      assert AmountOf(b.roll, b.roll.list[i]) == 0;
    }
    SumNonNegative(xs);
  }

  lemma FinalizeKeepsMoney(b: Book)
    requires MoneyInv(b) && FinalizeOk(b)
    ensures MoneyInv(FinalizeStep(b)) && Dust(FinalizeStep(b)) == Dust(b)
    ensures forall a :: PaidTo(FinalizeStep(b).moves, a) == PaidTo(b.moves, a)
  {
    NothingPending(b);
    var residual := OwnerResidual(b.cancel.value);
    Append(b.moves, Residual(residual));
    assert b.moves + [] == b.moves;
  }

  lemma FinalizeKeeps(b: Book)
    requires BookInv(b) && FinalizeOk(b)
    ensures BookInv(FinalizeStep(b)) && Dust(FinalizeStep(b)) == Dust(b)
  {
    FinalizeKeepsMoney(b);
    ClosedPillar(b, FinalizeStep(b));
  }

  lemma CollectKeepsMoney(b: Book, c: Address)
    requires MoneyInv(b) && HeldOf(b.held, c) > 0
    ensures MoneyInv(Collect(b, c)) && Dust(Collect(b, c)) == Dust(b)
    ensures forall a :: PaidTo(Collect(b, c).moves, a) == PaidTo(b.moves, a)
  {
    MapSumRemove(b.held, c);
    Append(b.moves, Refund(c, b.held[c]));
    var b' := Collect(b, c);
    if b.ev.status.Cancelling? {
      forall i | b.cancel.value.nextIdx <= i < |b.roll.list|
        ensures Unrefunded(b', b.roll.list[i])
      {
        assert Unrefunded(b, b.roll.list[i]);
      }
    }
  }

  lemma CollectKeeps(b: Book, c: Address)
    requires BookInv(b) && HeldOf(b.held, c) > 0
    ensures BookInv(Collect(b, c)) && Dust(Collect(b, c)) == Dust(b)
  {
    CollectKeepsMoney(b, c);
    assert b.ev.status.Cancelling? || b.ev.status.Cancelled?;
    ClosedPillar(b, Collect(b, c));
  }

  lemma DelegateKeepsPillar(b: Book, m: Option<Address>)
    requires PillarInv(b)
    ensures PillarInv(b.(manager := m))
  {
    var b' := b.(manager := m);
    match b.ev.pillar
    case Grant => assert GrantInv(b');
    case Crowdfunding => assert CampaignInv(b');
    case _ => assert PrizeInv(b');
  }

  lemma DelegateKeepsMoney(b: Book, m: Option<Address>)
    requires MoneyInv(b)
    ensures MoneyInv(b.(manager := m))
  {
    assert Dust(b.(manager := m)) == Dust(b);
  }

  lemma DelegateKeeps(b: Book, m: Option<Address>)
    requires BookInv(b)
    ensures BookInv(b.(manager := m))
  {
    DelegateKeepsPillar(b, m);
    DelegateKeepsMoney(b, m);
  }

  // ---- every step ----------------------------------------------------------------------

  lemma FundingAndPrizesKeep(b: Book, op: Op)
    requires BookInv(b) && Enabled(b, op) && Fits(b, op)
    requires op.Fund? || op.SelectPrizes? || op.ClaimPrize?
    ensures BookInv(Apply(b, op))
  {
    match op
    case Fund(from, amount, fee) => FundKeeps(b, from, amount, fee);
    case SelectPrizes(specs, now) => SelectPrizesKeeps(b, specs, now);
    case ClaimPrize(position, now) => ClaimPrizeKeeps(b, position, now);
  }

  lemma GrantsKeep(b: Book, op: Op)
    requires BookInv(b) && Enabled(b, op)
    requires op.SelectGrants? || op.ClaimGrant? || op.ForfeitGrant?
    ensures BookInv(Apply(b, op))
  {
    match op
    case SelectGrants(specs) => SelectGrantsKeeps(b, specs);
    case ClaimGrant(r, m, now) => ClaimGrantKeeps(b, r, m, now);
    case ForfeitGrant(r, m) => ForfeitGrantKeeps(b, r, m);
  }

  lemma CancellationKeeps(b: Book, op: Op)
    requires BookInv(b) && Enabled(b, op)
    requires op.StartCancel? || op.Crank? || op.FinalizeCancel?
    ensures BookInv(Apply(b, op))
  {
    match op
    case StartCancel => StartCancelKeeps(b);
    case Crank(accepted) => CrankKeeps(b, accepted);
    case FinalizeCancel => FinalizeKeeps(b);
  }

  lemma OthersKeep(b: Book, op: Op)
    requires BookInv(b) && Enabled(b, op)
    requires op.ClaimCampaign? || op.CollectRefund? || op.Delegate?
    ensures BookInv(Apply(b, op))
  {
    match op
    case ClaimCampaign(m, fee, now) => ClaimCampaignKeeps(b, m, fee, now);
    case CollectRefund(c) => CollectKeeps(b, c);
    case Delegate(m) => DelegateKeeps(b, m);
  }

  /** Every enabled step whose counters have room keeps the invariant. */
  lemma StepKeepsBook(b: Book, op: Op)
    requires BookInv(b) && Enabled(b, op) && Fits(b, op)
    ensures BookInv(Apply(b, op))
  {
    if op.Fund? || op.SelectPrizes? || op.ClaimPrize? {
      FundingAndPrizesKeep(b, op);
    } else if op.SelectGrants? || op.ClaimGrant? || op.ForfeitGrant? {
      GrantsKeep(b, op);
    } else if op.StartCancel? || op.Crank? || op.FinalizeCancel? {
      CancellationKeeps(b, op);
    } else {
      OthersKeep(b, op);
    }
  }
}
