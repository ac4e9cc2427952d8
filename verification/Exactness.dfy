/** The room a step's counters need is exactly what the invariant needs. */
module Exactness {
  import opened Numeric
  import opened Sums
  import opened Types
  import opened Books
  import opened Invariants
  import opened Steps
  import opened Preservation

  // ---- add_funds -----------------------------------------------------------------------

  /** A contribution keeps the stored total equal to the scan exactly when the total has
      room for it, or its contributor is the only one there is. */
  lemma TotalMatchesScanExactlyWhen(b: Book, from: Address, amount: I128, fee: I128)
    requires BookInv(b) && FundOk(b, from, amount, fee) && from != b.ev.owner
    ensures var b' := FundStep(b, from, amount, fee);
            b'.nonOwnerTotal == Some(Sum(Amounts(b'.roll))) <==>
              b.nonOwnerTotal.value + amount <= I128_MAX || AmountOf(b.roll, from) == b.nonOwnerTotal.value
  {
    assert Contributors(b.roll, b.ev.owner, b.nonOwnerTotal);
    FundRoll(b, from, amount, fee);
    CreditTotal(b.roll, b.ev.owner, from, amount);
    TotalBounds(b.roll, b.ev.owner, from);
  }

  lemma ActiveTotalIsScan(b: Book)
    requires BookInv(b) && b.ev.status.Active?
    ensures b.nonOwnerTotal == Some(Sum(Amounts(b.roll)))
  {
  }

  lemma FundKeepsExactlyWhen(b: Book, from: Address, amount: I128, fee: I128)
    requires BookInv(b) && FundOk(b, from, amount, fee)
    ensures BookInv(FundStep(b, from, amount, fee)) <==> FundFits(b, from, amount)
  {
    var b' := FundStep(b, from, amount, fee);
    if FundFits(b, from, amount) {
      FundKeeps(b, from, amount, fee);
    } else {
      ActiveTotalIsScan(b);
      TotalMatchesScanExactlyWhen(b, from, amount, fee);
      FundIsOnlyFunding(b, from, amount, fee);
      if BookInv(b') {
        ActiveTotalIsScan(b');
      }
    }
  }

  // ---- select_winners --------------------------------------------------------------------

  /** Past the last index a u32 has, a batch overwrites the row of an earlier prize. */
  lemma LastRowOverwritten(b: Book, specs: seq<WinnerSpec>, now: U64)
    requires PrizeRows(b.ev.prizeFloors, b.rows, b.prizes.awards) && |b.rows| == U32_MAX + 1
    requires SelectPrizesOk(b, specs, now)
    ensures var b' := SelectPrizesStep(b, specs, now); !PrizeRows(b.ev.prizeFloors, b'.rows, b'.prizes.awards)
  {
    var reserved := b.(owed := SatAdd(ValidatePrizes(b, specs, 0).value, b.owed));
    PlacedWithinIndex(reserved, specs, WinnerCount(b.rows));
    ValidatedPrizes(b, specs, 0);
    assert specs[1..] == [];
    var b', p := SelectPrizesStep(b, specs, now), b.rows[U32_MAX].position;
    assert b'.rows == b.rows[U32_MAX := AwardRow(specs[0])];
    assert b'.prizes.awards[p] == b.prizes.awards[p];
    assert b'.rows[b'.prizes.awards[p].anchorIdx].position == specs[0].position;
  }

  /** With the count of unclaimed prizes at its limit, it stops counting. */
  lemma CountClipped(b: Book, specs: seq<WinnerSpec>, now: U64)
    requires PrizeInv(b) && b.owed >= 0 && SelectPrizesOk(b, specs, now)
    requires |b.rows| <= U32_MAX && b.prizes.unclaimed + |specs| > U32_MAX
    ensures SelectPrizesStep(b, specs, now).prizes.unclaimed < Sum(UnpaidMarks(SelectPrizesStep(b, specs, now).rows))
  {
    SelectedPrizes(b, specs, now);
    SelectedRows(b, specs, now);
    PlacedSums(b.rows, specs, b.ev.owner);
  }

  lemma SelectKeepsExactlyWhen(b: Book, specs: seq<WinnerSpec>, now: U64)
    requires BookInv(b) && SelectPrizesOk(b, specs, now)
    ensures BookInv(SelectPrizesStep(b, specs, now)) <==> SelectPrizesFits(b, specs)
  {
    assert PrizeInv(b);
    if SelectPrizesFits(b, specs) {
      SelectPrizesKeeps(b, specs, now);
    } else {
      SelectPrizesFrame(b, specs, now);
      if |b.rows| > U32_MAX {
        LastRowOverwritten(b, specs, now);
      } else {
        CountClipped(b, specs, now);
      }
    }
  }

  // ---- every step ------------------------------------------------------------------------

  /** An enabled step keeps the invariant of its event exactly when the counters it adds to
      have room: no weaker premise would do, and none is needed by any other step. */
  lemma StepKeepsExactlyWhen(b: Book, op: Op)
    requires BookInv(b) && Enabled(b, op)
    ensures BookInv(Apply(b, op)) <==> Fits(b, op)
  {
    if op.Fund? {
      FundKeepsExactlyWhen(b, op.from, op.amount, op.fee);
    } else if op.SelectPrizes? {
      SelectKeepsExactlyWhen(b, op.specs, op.now);
    } else {
      StepKeepsBook(b, op);
    }
  }
}
