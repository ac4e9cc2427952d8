/** What any sequence of steps does to one event: where its money goes, how it ends, and
    how the paged crank compares with refunding everyone at once. */
module Histories {
  import opened Numeric
  import opened Sums
  import opened Types
  import opened Milestones
  import opened Refunds
  import opened Books
  import opened Audit
  import opened Invariants
  import opened Steps
  import opened Preservation

  function ApplyAll(b: Book, ops: seq<Op>): Book {
    if ops == [] then b else Apply(ApplyAll(b, ops[..|ops| - 1]), ops[|ops| - 1])
  }

  /** Every step is one its entry point would have made, with room for its counters. */
  ghost predicate Allowed(b: Book, ops: seq<Op>) {
    ops == [] ||
      var before := ApplyAll(b, ops[..|ops| - 1]);
      Allowed(b, ops[..|ops| - 1]) && Enabled(before, ops[|ops| - 1]) && Fits(before, ops[|ops| - 1])
  }

  lemma {:induction false} HistoryKeeps(b: Book, ops: seq<Op>)
    requires BookInv(b) && Allowed(b, ops)
    ensures BookInv(ApplyAll(b, ops))
    decreases |ops|
  {
    if ops != [] {
      HistoryKeeps(b, ops[..|ops| - 1]);
      StepKeepsBook(ApplyAll(b, ops[..|ops| - 1]), ops[|ops| - 1]);
    }
  }

  // ---- lifecycle -------------------------------------------------------------------------

  /** Where one step can take an event. */
  predicate CanMove(s: EventStatus, s': EventStatus) {
    s' == s || s.Active? || (s.Cancelling? && s'.Cancelled?)
  }

  /** What create_event wrote and no step changes. */
  ghost predicate SameTerms(ev: EventRecord, ev': EventRecord) {
    ev' == ev.(remainingEscrow := ev'.remainingEscrow, status := ev'.status)
  }

  lemma AwardStepMoves(b: Book, op: Op)
    requires Enabled(b, op)
    requires op.Fund? || op.SelectPrizes? || op.SelectGrants? || op.ClaimPrize?
    ensures SameTerms(b.ev, Apply(b, op).ev) && b.ev.status.Active?
  {
    if op.SelectPrizes? {
      SelectPrizesFrame(b, op.specs, op.now);
    }
  }

  lemma SettleStepMoves(b: Book, op: Op)
    requires Enabled(b, op)
    requires op.ClaimGrant? || op.ForfeitGrant? || op.ClaimCampaign?
    ensures SameTerms(b.ev, Apply(b, op).ev) && b.ev.status.Active?
  {
  }

  lemma CancelStepMoves(b: Book, op: Op)
    requires BookInv(b) && Enabled(b, op)
    requires op.StartCancel? || op.Crank? || op.FinalizeCancel?
    ensures SameTerms(b.ev, Apply(b, op).ev) && CanMove(b.ev.status, Apply(b, op).ev.status)
  {
    match op
    case Crank(accepted) => CrankKeeps(b, accepted);
    case StartCancel => StartCancelFrame(b);
    case FinalizeCancel => assert FinalizeStep(b).ev == b.ev.(remainingEscrow := 0, status := Cancelled);
  }

  lemma StepMoves(b: Book, op: Op)
    requires BookInv(b) && Enabled(b, op)
    ensures SameTerms(b.ev, Apply(b, op).ev) && CanMove(b.ev.status, Apply(b, op).ev.status)
  {
    if op.Fund? || op.SelectPrizes? || op.SelectGrants? || op.ClaimPrize? {
      AwardStepMoves(b, op);
    } else if op.ClaimGrant? || op.ForfeitGrant? || op.ClaimCampaign? {
      SettleStepMoves(b, op);
    } else if op.StartCancel? || op.Crank? || op.FinalizeCancel? {
      CancelStepMoves(b, op);
    }
  }

  /** The terms of an event never change, and its status only moves from active to
      completed, cancelled or cancelling, and from cancelling to cancelled. */
  lemma {:induction false} Lifecycle(b: Book, ops: seq<Op>)
    requires BookInv(b) && Allowed(b, ops)
    ensures SameTerms(b.ev, ApplyAll(b, ops).ev) && CanMove(b.ev.status, ApplyAll(b, ops).ev.status)
    decreases |ops|
  {
    if ops != [] {
      var before := ApplyAll(b, ops[..|ops| - 1]);
      Lifecycle(b, ops[..|ops| - 1]);
      HistoryKeeps(b, ops[..|ops| - 1]);
      StepMoves(before, ops[|ops| - 1]);
    }
  }

  lemma AllPrizesPaid(b: Book)
    requires PrizeInv(b) && b.ev.status.Completed? && b.owed == 0
    ensures b.prizes.unclaimed == 0 && b.rows != []
    ensures forall i :: 0 <= i < |b.rows| ==> b.rows[i].paidAt.Some?
  {
    var unpaid, marks := UnpaidAmounts(b.rows), UnpaidMarks(b.rows);
    SumNonNegative(unpaid);
    forall i | 0 <= i < |b.rows|
      ensures b.rows[i].paidAt.Some? && marks[i] == 0
    {
      assert unpaid[i] == 0;
    }
    SumNonNegative(marks);
  }

  lemma AllMilestonesReleased(b: Book)
    requires CampaignInv(b) && b.ev.status.Completed?
    ensures forall m :: 0 <= m < b.ev.releaseKind.n ==> m in FlagsOf(b.flags, b.ev.owner)
  {
    Pigeonhole(FlagsOf(b.flags, b.ev.owner), b.ev.releaseKind.n);
  }

  /** A completed event has an empty escrow and has delivered: every prize row is paid,
      every grant recipient got the whole award with nothing forfeited, every milestone of
      a campaign is released. */
  lemma CompletedMeansDelivered(b: Book)
    requires BookInv(b) && b.ev.status.Completed?
    ensures b.ev.remainingEscrow == 0 && b.owed == 0
    ensures b.ev.releaseKind.Single? ==>
              b.rows != [] && forall i :: 0 <= i < |b.rows| ==> b.rows[i].paidAt.Some?
    ensures b.ev.pillar.Grant? ==>
              b.roster.Some? && forall a :: a in b.roster.value ==> PaidTo(b.moves, a) == b.roster.value[a].amount
    ensures b.ev.pillar.Crowdfunding? ==>
              forall m :: 0 <= m < b.ev.releaseKind.n ==> m in FlagsOf(b.flags, b.ev.owner)
  {
    match b.ev.pillar
    case Grant =>
    case Crowdfunding => AllMilestonesReleased(b);
    case _ => AllPrizesPaid(b);
  }

  /** A cancelled event has an empty escrow and owes no award. */
  lemma CancelledMeansEmpty(b: Book)
    requires BookInv(b) && b.ev.status.Cancelled?
    ensures b.ev.remainingEscrow == 0 && b.owed == 0 && b.cancel.None?
    ensures Liability(b) == MapSum(b.held)
  {
  }

  /** A grant is cancelled only once every milestone of every award is settled. */
  lemma GrantCancelsOnlySettled(b: Book)
    requires BookInv(b) && b.ev.pillar.Grant? && b.roster.Some?
    requires Enabled(b, StartCancel) || b.ev.status.Cancelling? || b.ev.status.Cancelled?
    ensures FullySettled(b)
    ensures forall a, m: U32 :: a in b.roster.value && m < b.ev.releaseKind.Milestones().value ==>
          m in FlagsOf(b.flags, a)
  {
    ClosedGrant(b);
    forall a | a in b.roster.value
      ensures forall m: U32 :: m < b.ev.releaseKind.Milestones().value ==> m in FlagsOf(b.flags, a)
    {
      TracksBounds(b.ev.releaseKind, b.roster.value[a].amount, FlagsOf(b.flags, a), ProgressOf(b.progress, a));
    }
  }

  // ---- conservation ----------------------------------------------------------------------

  /** Taking the pro-rata branch, the one step that leaves dust. */
  ghost predicate StartsProRata(b: Book, op: Op) {
    op.StartCancel? && Apply(b, op).cancel.Some? && Apply(b, op).cancel.value.branch.ProRataPartners?
  }

  /** What the pro-rata branch can leave behind. */
  ghost predicate ProRataDust(b: Book) {
    && b.cancel.Some? && b.ev.status.Cancelling?
    && 0 <= Dust(b)
    && (Exact(b.cancel.value, Amounts(b.roll)) ==> Dust(b) < b.cancel.value.countAtStart)
  }

  lemma ActiveOrDoneHasNoDust(b: Book)
    requires BookInv(b) && (b.ev.status.Active? || b.ev.status.Completed?)
    ensures Dust(b) == 0
  {
  }

  lemma OwnerOnlyDust(b: Book)
    requires MoneyInv(b) && StartCancelOk(b) && b.nonOwnerTotal.value <= 0
    ensures Dust(StartCancelStep(b)) == 0 && StartCancelStep(b).cancel.None?
  {
    AppendNet(b.moves, Residual(b.ev.remainingEscrow));
    assert b.moves + [] == b.moves;
  }

  lemma ProRataStart(b: Book)
    requires MoneyInv(b) && StartCancelOk(b) && StartsProRata(b, StartCancel)
    ensures ProRataDust(StartCancelStep(b))
  {
    if b.nonOwnerTotal.value <= 0 {
      OwnerOnlyDust(b);
    } else {
      CancellingTerms(b);
      var b' := StartCancelStep(b);
      AmountsNonNegative(b.roll, b.ev.owner);
      ProRataWithinEscrow(b'.cancel.value, Amounts(b.roll));
      assert Dust(b') == b.ev.remainingEscrow - Sum(Shares(b'.cancel.value, Amounts(b.roll)));
    }
  }

  lemma FullCancelDust(b: Book)
    requires MoneyInv(b) && StartCancelOk(b) && b.nonOwnerTotal.value > 0
    requires !StartsProRata(b, StartCancel)
    ensures Dust(StartCancelStep(b)) == 0
  {
    StartCancelKeepsMoney(b);
    CancelFixesTerms(b);
  }

  lemma CancelFixesTerms(b: Book)
    requires StartCancelOk(b) && b.nonOwnerTotal.Some? && b.nonOwnerTotal.value > 0
    ensures StartCancelStep(b).ev.status.Cancelling? && StartCancelStep(b).cancel.Some?
  {
  }

  lemma CancelDust(b: Book)
    requires BookInv(b) && StartCancelOk(b) && !StartsProRata(b, StartCancel)
    ensures Dust(StartCancelStep(b)) == 0
  {
    if b.nonOwnerTotal.value <= 0 {
      OwnerOnlyDust(b);
    } else {
      FullCancelDust(b);
    }
  }

  lemma ActiveStepDust(b: Book, op: Op)
    requires BookInv(b) && b.ev.status.Active? && Enabled(b, op) && Fits(b, op)
    requires op.Fund? || op.SelectPrizes? || op.SelectGrants? || op.ClaimPrize? || op.ClaimGrant?
          || op.ForfeitGrant? || op.ClaimCampaign?
    ensures Dust(Apply(b, op)) == Dust(b)
  {
    StepKeepsBook(b, op);
    StaysActiveOrDone(b, op);
    ActiveOrDoneHasNoDust(b);
    ActiveOrDoneHasNoDust(Apply(b, op));
  }

  lemma StaysActiveOrDone(b: Book, op: Op)
    requires b.ev.status.Active? && Enabled(b, op)
    requires op.Fund? || op.SelectPrizes? || op.SelectGrants? || op.ClaimPrize? || op.ClaimGrant?
          || op.ForfeitGrant? || op.ClaimCampaign?
    ensures Apply(b, op).ev.status.Active? || Apply(b, op).ev.status.Completed?
  {
    if op.SelectPrizes? {
      SelectPrizesFrame(b, op.specs, op.now);
    }
  }

  lemma ClosingStepDust(b: Book, op: Op)
    requires BookInv(b) && Enabled(b, op) && !StartsProRata(b, op)
    requires op.StartCancel? || op.Crank? || op.FinalizeCancel?
    ensures Dust(Apply(b, op)) == Dust(b)
  {
    match op
    case StartCancel => CancelDust(b);
    case Crank(accepted) => CrankKeeps(b, accepted);
    case FinalizeCancel => FinalizeKeeps(b);
  }

  lemma AwardStepIsActive(b: Book, op: Op)
    requires Enabled(b, op)
    requires op.Fund? || op.SelectPrizes? || op.SelectGrants? || op.ClaimPrize? || op.ClaimGrant?
          || op.ForfeitGrant? || op.ClaimCampaign?
    ensures b.ev.status.Active?
  {
  }

  lemma DelegateDust(b: Book, m: Option<Address>)
    ensures Dust(b.(manager := m)) == Dust(b)
  {
  }

  /** No step but taking the pro-rata branch changes the dust. */
  lemma StepDust(b: Book, op: Op)
    requires BookInv(b) && Enabled(b, op) && Fits(b, op) && !StartsProRata(b, op)
    ensures Dust(Apply(b, op)) == Dust(b)
  {
    if op.StartCancel? || op.Crank? || op.FinalizeCancel? {
      ClosingStepDust(b, op);
    } else if op.CollectRefund? {
      CollectKeeps(b, op.contributor);
    } else if op.Delegate? {
      DelegateDust(b, op.manager);
    } else {
      AwardStepIsActive(b, op);
      ActiveStepDust(b, op);
    }
  }

  lemma StaysClosed(b: Book, op: Op)
    requires BookInv(b) && Enabled(b, op) && !b.ev.status.Active?
    ensures !Apply(b, op).ev.status.Active? && !StartsProRata(b, op)
  {
    StepMoves(b, op);
  }

  /** Once an event has left the active state, nothing changes its dust. */
  lemma {:induction false} DustStays(b: Book, ops: seq<Op>)
    requires BookInv(b) && !b.ev.status.Active? && Allowed(b, ops)
    ensures Dust(ApplyAll(b, ops)) == Dust(b) && !ApplyAll(b, ops).ev.status.Active?
    decreases |ops|
  {
    if ops != [] {
      var before := ApplyAll(b, ops[..|ops| - 1]);
      DustStays(b, ops[..|ops| - 1]);
      HistoryKeeps(b, ops[..|ops| - 1]);
      StaysClosed(before, ops[|ops| - 1]);
      StepDust(before, ops[|ops| - 1]);
    }
  }

  /** What came in for an event is what went out for it, what it still owes, and dust. */
  ghost predicate Conserves(b: Book, dust: int) {
    var t := Tally(b.moves);
    t.deposits == t.fees + t.payouts + t.refunds + t.residual + Liability(b) + dust
  }

  lemma ConservesDust(b: Book)
    ensures Conserves(b, Dust(b))
  {
    NetIsTally(b.moves);
  }

  /** Conservation before any cancellation: no dust, and the escrow is what is owed. */
  lemma ConservationWhileOpen(b: Book)
    requires BookInv(b) && (b.ev.status.Active? || b.ev.status.Completed?)
    ensures Conserves(b, 0) && Liability(b) == b.ev.remainingEscrow
  {
    ConservesDust(b);
    ActiveOrDoneHasNoDust(b);
  }

  /** Conservation through a cancellation, whatever pages it is cranked in, whichever
      refunds are refused and whenever held ones are claimed: there is no dust unless the
      event took the pro-rata branch, and then at least nothing and, when no refund product
      saturates, less than one unit per contributor. */
  lemma ConservationThroughCancel(b: Book, ops: seq<Op>)
    requires BookInv(b) && Enabled(b, StartCancel) && Allowed(Apply(b, StartCancel), ops)
    ensures var begun := Apply(b, StartCancel);
            var dust := Dust(begun);
            && Conserves(ApplyAll(begun, ops), dust)
            && (!StartsProRata(b, StartCancel) ==> dust == 0)
            && (StartsProRata(b, StartCancel) ==> ProRataDust(begun))
  {
    var begun := StartCancelStep(b);
    if StartsProRata(b, StartCancel) {
      ProRataStart(b);
    } else {
      CancelDust(b);
    }
    StartCancelKeeps(b);
    StartCancelFrame(b);
    DustStays(begun, ops);
    ConservesDust(ApplyAll(begun, ops));
  }
}
