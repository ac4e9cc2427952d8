/** The winner rows of a grant tell the same story as the records kept in their place. */
module Walks {
  import opened Numeric
  import opened Sums
  import opened Types
  import opened Milestones
  import opened Refunds
  import opened Books
  import opened Audit
  import opened Invariants
  import opened Steps
  import opened Backing
  import opened Histories

  /** The unpaid rows are the roster: each names an award, and every award has one. */
  ghost predicate RosterRows(roster: map<Address, GrantAward>, rows: seq<Winner>) {
    && (forall i :: 0 <= i < |rows| && rows[i].paidAt.None? ==>
          rows[i].recipient in roster && roster[rows[i].recipient] == GrantAward(rows[i].position, rows[i].amount))
    && (forall a :: a in roster ==> exists i :: 0 <= i < |rows| && rows[i].paidAt.None? && rows[i].recipient == a)
  }

  /** The paid rows are the payouts: to each recipient they total what it was paid. */
  ghost predicate PaidRows(moves: seq<Move>, rows: seq<Winner>) {
    forall a :: PaidTo(moves, a) == Sum(PaidAmounts(rows, a))
  }

  ghost predicate WalkAgrees(b: Book) {
    RosterRows(b.roster.GetOr(map[]), b.rows) && PaidRows(b.moves, b.rows)
  }

  // ---- select_winners --------------------------------------------------------------------

  lemma {:induction false} AwardsAppendRows(rows: seq<Winner>, specs: seq<WinnerSpec>)
    requires |AppendAwards(rows, specs)| <= U32_MAX
    ensures |rows| + |specs| == |AppendAwards(rows, specs)|
    decreases |specs|
  {
    if specs != [] {
      AwardsAppendRows(AppendWinner(rows, AwardRow(specs[0])), specs[1..]);
    }
  }

  lemma EnterRow(roster: map<Address, GrantAward>, rows: seq<Winner>, spec: WinnerSpec)
    requires RosterRows(roster, rows) && spec.recipient !in roster
    ensures RosterRows(roster[spec.recipient := GrantAward(spec.position, spec.amount)], rows + [AwardRow(spec)])
  {
    var roster' := roster[spec.recipient := GrantAward(spec.position, spec.amount)];
    var rows' := rows + [AwardRow(spec)];
    forall a | a in roster'
      ensures exists i :: 0 <= i < |rows'| && rows'[i].paidAt.None? && rows'[i].recipient == a
    {
      if a == spec.recipient {
        assert rows'[|rows|].recipient == a;
      } else {
        var i :| 0 <= i < |rows| && rows[i].paidAt.None? && rows[i].recipient == a;
        assert rows'[i] == rows[i];
      }
    }
  }

  lemma RowTotal(rows: seq<Winner>, w: Winner, a: Address)
    ensures Sum(PaidAmounts(rows + [w], a)) ==
            Sum(PaidAmounts(rows, a)) + if w.paidAt.Some? && w.recipient == a then w.amount else 0
  {
    var paid := if w.paidAt.Some? && w.recipient == a then w.amount else 0;
    assert PaidAmounts(rows + [w], a) == PaidAmounts(rows, a) + [paid];
    SumAppend(PaidAmounts(rows, a), paid);
  }

  lemma {:induction false} AwardedRows(ev: EventRecord, specs: seq<WinnerSpec>, roster: map<Address, GrantAward>,
                                       acc: I128, rows: seq<Winner>)
    requires RosterRows(roster, rows) && |rows| + |specs| <= U32_MAX
    requires ValidateGrants(ev, specs, roster, acc).Ok?
    ensures RosterRows(ValidateGrants(ev, specs, roster, acc).value.0, AppendAwards(rows, specs))
    decreases |specs|
  {
    if specs != [] {
      EnterRow(roster, rows, specs[0]);
      AwardedRows(ev, specs[1..], roster[specs[0].recipient := GrantAward(specs[0].position, specs[0].amount)],
                  acc + specs[0].amount, rows + [AwardRow(specs[0])]);
    }
  }

  lemma {:induction false} AwardedTotals(rows: seq<Winner>, specs: seq<WinnerSpec>, a: Address)
    requires |rows| + |specs| <= U32_MAX
    ensures Sum(PaidAmounts(AppendAwards(rows, specs), a)) == Sum(PaidAmounts(rows, a))
    decreases |specs|
  {
    if specs != [] {
      RowTotal(rows, AwardRow(specs[0]), a);
      AwardedTotals(rows + [AwardRow(specs[0])], specs[1..], a);
    }
  }

  lemma SelectWalks(b: Book, specs: seq<WinnerSpec>)
    requires WalkAgrees(b) && SelectGrantsOk(b, specs) && b.roster.None?
    requires |SelectGrantsStep(b, specs).rows| <= U32_MAX
    ensures WalkAgrees(SelectGrantsStep(b, specs))
  {
    AwardsAppendRows(b.rows, specs);
    AwardedRows(b.ev, specs, map[], 0, b.rows);
    forall a
      ensures PaidTo(b.moves, a) == Sum(PaidAmounts(AppendAwards(b.rows, specs), a))
    {
      AwardedTotals(b.rows, specs, a);
    }
  }

  // ---- claim_milestone -------------------------------------------------------------------

  lemma PaidRowAdded(roster: map<Address, GrantAward>, moves: seq<Move>, rows: seq<Winner>, w: Winner)
    requires RosterRows(roster, rows) && PaidRows(moves, rows) && w.paidAt.Some?
    ensures RosterRows(roster, rows + [w]) && PaidRows(moves + [Payout(w.recipient, w.amount)], rows + [w])
  {
    forall a
      ensures PaidTo(moves + [Payout(w.recipient, w.amount)], a) == Sum(PaidAmounts(rows + [w], a))
    {
      AppendFor(moves, Payout(w.recipient, w.amount), a);
      RowTotal(rows, w, a);
    }
    forall a | a in roster
      ensures exists i :: 0 <= i < |rows + [w]| && (rows + [w])[i].paidAt.None? && (rows + [w])[i].recipient == a
    {
      var i :| 0 <= i < |rows| && rows[i].paidAt.None? && rows[i].recipient == a;
      assert (rows + [w])[i] == rows[i];
    }
  }

  lemma ClaimWalks(b: Book, r: Address, m: U32, now: U64)
    requires WalkAgrees(b) && ClaimGrantOk(b, r, m) && |ClaimGrantStep(b, r, m, now).rows| <= U32_MAX
    ensures WalkAgrees(ClaimGrantStep(b, r, m, now))
  {
    var b', amount := ClaimGrantStep(b, r, m, now), GrantShare(b, r, m).value;
    var w := Winner(r, b.roster.value[r].position, amount, Some(m), Some(now));
    assert b'.rows == AppendWinner(b.rows, w);
    PaidRowAdded(b.roster.value, b.moves, b.rows, w);
    assert b'.moves == b.moves + [Payout(r, amount)];
    assert b'.roster == b.roster && b'.rows == b.rows + [w];
  }

  // ---- everything else -------------------------------------------------------------------

  /** A step that leaves the roster, the rows and what was paid out alone. */
  ghost predicate AwardsStay(b: Book, b': Book) {
    && b'.roster == b.roster && b'.rows == b.rows
    && forall a :: PaidTo(b'.moves, a) == PaidTo(b.moves, a)
  }

  lemma SlotStays(b: Book, accepted: bool)
    requires MoreSlots(b)
    ensures AwardsStay(b, CrankSlot(b, accepted))
  {
    CrankedMoves(b, accepted);
    var refund := NextRefund(b);
    if refund.Some? && accepted {
      forall a
        ensures PaidTo(CrankSlot(b, accepted).moves, a) == PaidTo(b.moves, a)
      {
        AppendFor(b.moves, Refund(refund.value.0, refund.value.1), a);
      }
    }
  }

  lemma {:induction false} CrankStays(b: Book, accepted: seq<bool>)
    ensures AwardsStay(b, CrankAll(b, accepted))
    decreases |accepted|
  {
    if accepted != [] && MoreSlots(b) {
      SlotStays(b, accepted[0]);
      CrankStays(CrankSlot(b, accepted[0]), accepted[1..]);
    }
  }

  lemma FundStays(b: Book, from: Address, amount: I128, fee: I128)
    requires FundOk(b, from, amount, fee)
    ensures AwardsStay(b, FundStep(b, from, amount, fee))
  {
    AppendDeposit(b.moves, from, amount, fee);
  }

  lemma CancelStays(b: Book)
    requires StartCancelOk(b)
    ensures AwardsStay(b, StartCancelStep(b))
  {
    var b' := StartCancelStep(b);
    forall a
      ensures PaidTo(b'.moves, a) == PaidTo(b.moves, a)
    {
      AppendFor(b.moves, Residual(b.ev.remainingEscrow), a);
      assert b'.moves == b.moves || b'.moves == b.moves + [Residual(b.ev.remainingEscrow)];
    }
  }

  lemma FinalizeStays(b: Book)
    requires FinalizeOk(b)
    ensures AwardsStay(b, FinalizeStep(b))
  {
    var b', residual := FinalizeStep(b), OwnerResidual(b.cancel.value);
    forall a
      ensures PaidTo(b'.moves, a) == PaidTo(b.moves, a)
    {
      AppendFor(b.moves, Residual(residual), a);
      assert b'.moves == b.moves || b'.moves == b.moves + [Residual(residual)];
    }
  }

  lemma CollectStays(b: Book, c: Address)
    ensures AwardsStay(b, Collect(b, c))
  {
    forall a
      ensures PaidTo(Collect(b, c).moves, a) == PaidTo(b.moves, a)
    {
      AppendFor(b.moves, Refund(c, HeldOf(b.held, c)), a);
    }
  }

  lemma OtherStepsStay(b: Book, op: Op)
    requires Enabled(b, op) && !op.SelectGrants? && !op.ClaimGrant?
    requires b.ev.pillar.Grant? && GrantKind(b.ev.releaseKind)
    ensures AwardsStay(b, Apply(b, op))
  {
    match op
    case Fund(from, amount, fee) => FundStays(b, from, amount, fee);
    case StartCancel => CancelStays(b);
    case Crank(accepted) => CrankStays(b, accepted);
    case FinalizeCancel => FinalizeStays(b);
    case CollectRefund(c) => CollectStays(b, c);
    case _ =>
  }

  lemma {:induction false} AwardsOnlyAppend(rows: seq<Winner>, specs: seq<WinnerSpec>)
    ensures |rows| <= |AppendAwards(rows, specs)|
    decreases |specs|
  {
    if specs != [] {
      AwardsOnlyAppend(AppendWinner(rows, AwardRow(specs[0])), specs[1..]);
    }
  }

  lemma RowsOnlyGrow(b: Book, op: Op)
    requires Enabled(b, op) && b.ev.pillar.Grant? && GrantKind(b.ev.releaseKind)
    ensures |b.rows| <= |Apply(b, op).rows|
  {
    match op
    case SelectGrants(specs) => AwardsOnlyAppend(b.rows, specs);
    case ClaimGrant(r, m, now) =>
    case _ => OtherStepsStay(b, op);
  }

  lemma StepWalks(b: Book, op: Op)
    requires BookInv(b) && b.ev.pillar.Grant? && WalkAgrees(b) && Enabled(b, op)
    requires |Apply(b, op).rows| <= U32_MAX
    ensures WalkAgrees(Apply(b, op))
  {
    assert GrantInv(b);
    match op
    case SelectGrants(specs) => SelectWalks(b, specs);
    case ClaimGrant(r, m, now) => ClaimWalks(b, r, m, now);
    case _ => OtherStepsStay(b, op);
  }

  /** In every history of a grant whose rows a u32 can index, the rows agree with the
      records: the unpaid ones are the roster, and to each recipient the paid ones total
      what was paid. */
  lemma {:induction false} RecordsReplaceTheWalk(b: Book, ops: seq<Op>)
    requires BookInv(b) && b.ev.pillar.Grant? && WalkAgrees(b) && Allowed(b, ops)
    requires |ApplyAll(b, ops).rows| <= U32_MAX
    ensures WalkAgrees(ApplyAll(b, ops))
    decreases |ops|
  {
    if ops != [] {
      var init, op := ops[..|ops| - 1], ops[|ops| - 1];
      var before := ApplyAll(b, init);
      Lifecycle(b, init);
      HistoryKeeps(b, init);
      assert GrantInv(before);
      RowsOnlyGrow(before, op);
      RecordsReplaceTheWalk(b, init);
      StepWalks(before, op);
    }
  }

  /** A grant starts out that way. */
  lemma NewGrantWalks(ev: EventRecord, fee: I128)
    requires ev.pillar.Grant? && fee >= 0 && ev.totalBudget >= 0 && ev.totalBudget + fee <= I128_MAX
    ensures WalkAgrees(NewBook(ev, fee))
  {
    var b := NewBook(ev, fee);
    AppendDeposit([], ev.owner, ev.totalBudget, fee);
    assert [] + DepositMoves(ev.owner, ev.totalBudget, fee) == b.moves;
    forall a
      ensures PaidTo(b.moves, a) == Sum(PaidAmounts(b.rows, a))
    {
      assert PaidAmounts(b.rows, a) == [];
    }
  }
}
