/** Every call is one step on one book, paid for out of that event's own transfers. */
module Backing {
  import opened Numeric
  import opened Sums
  import opened Types
  import opened Escrow
  import opened Refunds
  import opened Books
  import opened Audit
  import opened Invariants
  import opened Steps
  import opened Preservation
  import opened Calls
  import W = World

  /** A call's effect beside balances: one enabled step on one book. */
  ghost predicate TakesStep(w: W.World, w': W.World, id: U64, op: Op) {
    && id in w.books && Enabled(w.books[id], op)
    && w' == w.(books := w.books[id := Apply(w.books[id], op)], bal := w'.bal, seen := w'.seen)
  }

  /** The contract's balances change by what the step's own transfers say. */
  ghost predicate Funded(bal: Balances, bal': Balances, b: Book, b': Book) {
    && b'.ev.token == b.ev.token && b'.ev.id == b.ev.id
    && Gains(bal, bal', b.ev.token, NetOf(b') - NetOf(b))
  }

  lemma FundedBy(bal: Balances, bal': Balances, b: Book, b': Book, gain: int)
    requires Gains(bal, bal', b.ev.token, gain)
    requires NetOf(b') == NetOf(b) + gain && b'.ev.token == b.ev.token && b'.ev.id == b.ev.id
    ensures Funded(bal, bal', b, b')
  {
  }

  // ---- each event's net is backed ------------------------------------------------------

  lemma PendingNonNegative(b: Book)
    requires RollInv(b.roll, b.ev.owner) && (b.cancel.Some? ==> ValidTerms(b.cancel.value))
    ensures PendingRefunds(b) >= 0
  {
    if b.cancel.Some? {
      var st := b.cancel.value;
      AmountsNonNegative(b.roll, b.ev.owner);
      forall i | 0 <= i < |b.roll.list|
        ensures Shares(st, Amounts(b.roll))[i] >= 0
      {
        ShareBounds(st, Amounts(b.roll)[i]);
      }
      SumNonNegative(Shares(st, Amounts(b.roll)));
    }
  }

  lemma NetCoversLiability(b: Book)
    requires RollInv(b.roll, b.ev.owner) && MoneyInv(b)
    ensures 0 <= Liability(b) <= NetOf(b)
  {
    PendingNonNegative(b);
    MapSumNonNegative(b.held);
  }

  lemma NetsNonNegative(w: W.World)
    requires BooksInv(w)
    ensures forall id :: id in w.books ==> NetOf(w.books[id]) >= 0
  {
    forall id | id in w.books
      ensures NetOf(w.books[id]) >= 0
    {
      NetCoversLiability(w.books[id]);
    }
  }

  lemma NetsEntries(books: map<U64, Book>, t: Address)
    requires forall id :: id in books ==> NetOf(books[id]) >= 0
    ensures forall id :: id in Nets(books, t) ==> Nets(books, t)[id] >= 0
  {
  }

  lemma NetsUpdate(books: map<U64, Book>, id: U64, b': Book, t: Address)
    ensures Nets(books[id := b'], t) == Nets(books, t)[id := if b'.ev.token == t then NetOf(b') else 0]
  {
  }

  lemma NetWithinBalance(books: map<U64, Book>, bal: Balances, id: U64)
    requires forall i :: i in books ==> NetOf(books[i]) >= 0
    requires id in books
    requires BackedIn(books, bal, books[id].ev.token)
    ensures NetOf(books[id]) <= BalanceOf(bal, books[id].ev.token, SELF)
  {
    NetsEntries(books, books[id].ev.token);
    MapSumBounds(Nets(books, books[id].ev.token), id);
  }

  /** Changing one book by what the balances gained keeps every token backed. */
  lemma BackedAfter(books: map<U64, Book>, bal: Balances, bal': Balances, id: U64, b': Book, t: Address)
    requires BackedIn(books, bal, t)
    requires id in books ==> books[id].ev.token == b'.ev.token
    requires Gains(bal, bal', b'.ev.token, NetOf(b') - if id in books then NetOf(books[id]) else 0)
    ensures BackedIn(books[id := b'], bal', t)
  {
    NetsUpdate(books, id, b', t);
    MapSumUpdate(Nets(books, t), id, if b'.ev.token == t then NetOf(b') else 0);
  }

  lemma KeepsBacked(w: W.World, w': W.World, id: U64, b': Book)
    requires Backed(w) && w'.books == w.books[id := b']
    requires id in w.books ==> w.books[id].ev.token == b'.ev.token
    requires Gains(w.bal, w'.bal, b'.ev.token, NetOf(b') - if id in w.books then NetOf(w.books[id]) else 0)
    ensures Backed(w')
  {
    forall t
      ensures BackedIn(w'.books, w'.bal, t)
    {
      assert BackedIn(w.books, w.bal, t);
      BackedAfter(w.books, w.bal, w'.bal, id, b', t);
    }
  }

  lemma KeepsBooks(w: W.World, w': W.World, id: U64, b': Book)
    requires BooksInv(w) && w'.books == w.books[id := b'] && w'.nextId == w.nextId
    requires id in w.books && BookInv(b') && b'.ev.id == id
    ensures BooksInv(w')
  {
  }

  // ---- add_funds -----------------------------------------------------------------------

  lemma AddFundsSteps(w: W.World, env: Env, id: U64, from: Address, amount: I128, op: OpId)
    requires W.AddFunds(w, env, id, from, amount, op).Ok?
    requires id in w.books && w.books[id].ev.remainingEscrow <= BalanceOf(w.bal, w.books[id].ev.token, SELF)
    ensures TakesStep(w, W.AddFunds(w, env, id, from, amount, op).value, id,
                  Fund(from, amount, W.ContributionFee(w, w.books[id].ev, amount)))
    ensures var fee := W.ContributionFee(w, w.books[id].ev, amount); fee >= 0 && amount + fee <= I128_MAX
  {
    var b := w.books[id];
    AddFundsTransfer(w, env, id, from, amount, op);
  }

  lemma AddFundsTransfer(w: W.World, env: Env, id: U64, from: Address, amount: I128, op: OpId)
    requires W.AddFunds(w, env, id, from, amount, op).Ok? && id in w.books
    ensures var b := w.books[id]; var fee := W.ContributionFee(w, b.ev, amount);
            && amount > 0 && fee >= 0 && amount + fee <= I128_MAX
            && BalanceOf(w.bal, b.ev.token, SELF) + amount < I128_MAX
            && Gains(w.bal, W.AddFunds(w, env, id, from, amount, op).value.bal, b.ev.token, amount)
  {
    var b := w.books[id];
    if b.ev.pillar.Crowdfunding? {
      TransferEffect(w.bal, env, b.ev.token, from, SELF, amount);
    } else {
      DepositEffect(w.bal, env, b.ev.token, from, w.feeAccount, amount, W.EffectiveFeeBps(w, b.ev.feeBpsOverride));
    }
  }

  lemma FundNet(b: Book, from: Address, amount: I128, fee: I128)
    requires amount >= 0 && fee >= 0 && amount + fee <= I128_MAX && Enter(b, from).Ok?
    ensures var b' := FundStep(b, from, amount, fee);
            NetOf(b') == NetOf(b) + amount && b'.ev.token == b.ev.token && b'.ev.id == b.ev.id
  {
    AppendDeposit(b.moves, from, amount, fee);
  }

  lemma AddFundsFunded(w: W.World, env: Env, id: U64, from: Address, amount: I128, op: OpId)
    requires W.AddFunds(w, env, id, from, amount, op).Ok? && id in w.books
    ensures Funded(w.bal, W.AddFunds(w, env, id, from, amount, op).value.bal, w.books[id],
                   FundStep(w.books[id], from, amount, W.ContributionFee(w, w.books[id].ev, amount)))
  {
    var b := w.books[id];
    var fee := W.ContributionFee(w, b.ev, amount);
    AddFundsTransfer(w, env, id, from, amount, op);
    FundNet(b, from, amount, fee);
    FundedBy(w.bal, W.AddFunds(w, env, id, from, amount, op).value.bal, b, FundStep(b, from, amount, fee), amount);
  }

  // ---- start_cancel --------------------------------------------------------------------

  lemma StartCancelSteps(w: W.World, env: Env, id: U64, op: OpId)
    requires W.StartCancel(w, env, id, op).Ok?
    ensures TakesStep(w, W.StartCancel(w, env, id, op).value, id, Op.StartCancel)
  {
  }

  /** What start_cancel pays out at once. */
  function CancelPayment(b: Book): I128 {
    if TotalOrInit(b).Ok? && BranchFor(b.ev.remainingEscrow, TotalOrInit(b).value).OwnerOnly?
          && b.ev.remainingEscrow > 0
    then b.ev.remainingEscrow else 0
  }

  lemma StartCancelNet(b: Book)
    ensures var b' := StartCancelStep(b);
            NetOf(b') == NetOf(b) - CancelPayment(b) && b'.ev.token == b.ev.token && b'.ev.id == b.ev.id
  {
    var b' := StartCancelStep(b);
    if CancelPayment(b) > 0 {
      AppendNet(b.moves, Residual(b.ev.remainingEscrow));
      assert b'.moves == b.moves + [Residual(b.ev.remainingEscrow)];
    } else {
      assert b'.moves == b.moves;
    }
  }

  lemma StartCancelTransfer(w: W.World, env: Env, id: U64, op: OpId)
    requires W.StartCancel(w, env, id, op).Ok? && id in w.books
    ensures Gains(w.bal, W.StartCancel(w, env, id, op).value.bal, w.books[id].ev.token, -CancelPayment(w.books[id]))
  {
    var b := w.books[id];
    if CancelPayment(b) > 0 {
      ReleaseEffect(w.bal, env, b.ev.token, b.ev.owner, b.ev.remainingEscrow);
    }
  }

  lemma StartCancelFunded(w: W.World, env: Env, id: U64, op: OpId)
    requires W.StartCancel(w, env, id, op).Ok? && id in w.books
    ensures Funded(w.bal, W.StartCancel(w, env, id, op).value.bal, w.books[id], StartCancelStep(w.books[id]))
  {
    var b := w.books[id];
    StartCancelTransfer(w, env, id, op);
    StartCancelNet(b);
    FundedBy(w.bal, W.StartCancel(w, env, id, op).value.bal, b, StartCancelStep(b), -CancelPayment(b));
  }

  // ---- process_cancel_batch ------------------------------------------------------------

  lemma CrankedMoves(b: Book, accepted: bool)
    requires MoreSlots(b)
    ensures CrankSlot(b, accepted).ev == b.ev
    ensures CrankSlot(b, accepted).moves ==
            if NextRefund(b).Some? && accepted then b.moves + [Refund(NextRefund(b).value.0, NextRefund(b).value.1)]
            else b.moves
  {
  }

  lemma RefundNet(moves: seq<Move>, c: Address, payout: I128)
    ensures Net(moves + [Refund(c, payout)]) == Net(moves) - payout
  {
    AppendNet(moves, Refund(c, payout));
  }

  /** A slot of the crank moves exactly the refund the token accepts. */
  lemma CrankedSlotNet(b: Book, accepted: bool)
    requires MoreSlots(b)
    ensures NetOf(CrankSlot(b, accepted)) == NetOf(b) - SlotPayment(b, accepted)
    ensures CrankSlot(b, accepted).ev == b.ev
  {
    var refund := NextRefund(b);
    CrankedMoves(b, accepted);
    if refund.Some? && accepted {
      RefundNet(b.moves, refund.value.0, refund.value.1);
    }
  }

  /** The token's answer to the next slot's transfer, and the balances it leaves. */
  function Answer(b: Book, bal: Balances, env: Env): (bool, Balances)
    requires MoreSlots(b)
  {
    var refund := NextRefund(b);
    if refund.None? then (true, bal)
    else
      var r := Release(bal, env, b.ev.token, refund.value.0, refund.value.1);
      (r.Ok?, r.GetOr(bal))
  }

  function SlotPayment(b: Book, accepted: bool): int
    requires MoreSlots(b)
  {
    if NextRefund(b).Some? && accepted then NextRefund(b).value.1 else 0
  }

  lemma AnswerGains(b: Book, bal: Balances, env: Env)
    requires MoreSlots(b)
    ensures var (ok, bal') := Answer(b, bal, env);
            Gains(bal, bal', b.ev.token, -SlotPayment(b, ok))
  {
    var refund := NextRefund(b);
    if refund.Some? && Release(bal, env, b.ev.token, refund.value.0, refund.value.1).Ok? {
      ReleaseEffect(bal, env, b.ev.token, refund.value.0, refund.value.1);
    }
  }

  lemma GainsTwice(bal: Balances, mid: Balances, bal': Balances, t: Address, x: int, y: int)
    requires Gains(bal, mid, t, x) && Gains(mid, bal', t, y)
    ensures Gains(bal, bal', t, x + y)
  {
    forall u | u != t
      ensures BalanceOf(bal', u, SELF) == BalanceOf(bal, u, SELF)
    {
      assert BalanceOf(mid, u, SELF) == BalanceOf(bal, u, SELF);
    }
  }

  lemma UnfoldCrank(b: Book, bal: Balances, env: Env, cap: nat)
    requires cap > 0 && MoreSlots(b)
    ensures var (ok, bal') := Answer(b, bal, env);
            && W.CrankSlots(b, bal, env, cap) == W.CrankSlots(CrankSlot(b, ok), bal', env, cap - 1)
            && Answers(b, bal, env, cap) == [ok] + Answers(CrankSlot(b, ok), bal', env, cap - 1)
            && CrankAll(b, Answers(b, bal, env, cap)) ==
               CrankAll(CrankSlot(b, ok), Answers(CrankSlot(b, ok), bal', env, cap - 1))
  {
    var (ok, bal') := Answer(b, bal, env);
    assert Answers(b, bal, env, cap)[1..] == Answers(CrankSlot(b, ok), bal', env, cap - 1);
  }

  /** A whole batch is a crank of the book ... */
  lemma {:induction false} CrankSlotsBook(b: Book, bal: Balances, env: Env, cap: nat)
    ensures W.CrankSlots(b, bal, env, cap).0 == CrankAll(b, Answers(b, bal, env, cap))
    decreases cap
  {
    if cap > 0 && MoreSlots(b) {
      var (ok, mid) := Answer(b, bal, env);
      UnfoldCrank(b, bal, env, cap);
      CrankSlotsBook(CrankSlot(b, ok), mid, env, cap - 1);
    }
  }

  /** What a batch pays out. */
  ghost function BatchPayment(b: Book, bal: Balances, env: Env, cap: nat): int
    decreases cap
  {
    if cap == 0 || !MoreSlots(b) then 0
    else
      var (ok, mid) := Answer(b, bal, env);
      SlotPayment(b, ok) + BatchPayment(CrankSlot(b, ok), mid, env, cap - 1)
  }

  lemma {:induction false} CrankSlotsGain(b: Book, bal: Balances, env: Env, cap: nat)
    ensures Gains(bal, W.CrankSlots(b, bal, env, cap).1, b.ev.token, -BatchPayment(b, bal, env, cap))
    decreases cap
  {
    if cap > 0 && MoreSlots(b) {
      var (ok, mid) := Answer(b, bal, env);
      var c := CrankSlot(b, ok);
      UnfoldCrank(b, bal, env, cap);
      AnswerGains(b, bal, env);
      CrankedMoves(b, ok);
      CrankSlotsGain(c, mid, env, cap - 1);
      GainsTwice(bal, mid, W.CrankSlots(c, mid, env, cap - 1).1, b.ev.token,
                 -SlotPayment(b, ok), -BatchPayment(c, mid, env, cap - 1));
    }
  }

  lemma NetAfterSlot(b: Book, c: Book, bal: Balances, mid: Balances, ok: bool, env: Env, cap: nat)
    requires cap > 0 && MoreSlots(b) && (ok, mid) == Answer(b, bal, env) && c == CrankSlot(b, ok)
    ensures W.CrankSlots(b, bal, env, cap) == W.CrankSlots(c, mid, env, cap - 1)
    ensures BatchPayment(b, bal, env, cap) == SlotPayment(b, ok) + BatchPayment(c, mid, env, cap - 1)
  {
    UnfoldCrank(b, bal, env, cap);
  }

  /** Any measure that every slot lowers by its payment, a batch lowers by its own. */
  lemma {:induction false} CrankSlotsMeasure(measure: Book -> int, b: Book, bal: Balances, env: Env, cap: nat)
    requires forall x, ok :: MoreSlots(x) ==> measure(CrankSlot(x, ok)) == measure(x) - SlotPayment(x, ok)
    ensures measure(W.CrankSlots(b, bal, env, cap).0) == measure(b) - BatchPayment(b, bal, env, cap)
    ensures W.CrankSlots(b, bal, env, cap).0.ev == b.ev
    decreases cap
  {
    if cap > 0 && MoreSlots(b) {
      var (ok, mid) := Answer(b, bal, env);
      CrankedMoves(b, ok);
      CrankSlotsMeasure(measure, CrankSlot(b, ok), mid, env, cap - 1);
      NetAfterSlot(b, CrankSlot(b, ok), bal, mid, ok, env, cap);
    } else {
      assert W.CrankSlots(b, bal, env, cap) == (b, bal);
    }
  }

  lemma CrankSlotsNet(b: Book, bal: Balances, env: Env, cap: nat)
    ensures NetOf(W.CrankSlots(b, bal, env, cap).0) == NetOf(b) - BatchPayment(b, bal, env, cap)
    ensures W.CrankSlots(b, bal, env, cap).0.ev == b.ev
  {
    forall x, ok | MoreSlots(x)
      ensures NetOf(CrankSlot(x, ok)) == NetOf(x) - SlotPayment(x, ok)
    {
      CrankedSlotNet(x, ok);
    }
    CrankSlotsMeasure(NetOf, b, bal, env, cap);
  }

  /** ... and moves balances by the transfers it records. */
  lemma CrankSlotsFunded(b: Book, bal: Balances, env: Env, cap: nat)
    ensures var (b', bal') := W.CrankSlots(b, bal, env, cap); Funded(bal, bal', b, b')
  {
    CrankSlotsGain(b, bal, env, cap);
    CrankSlotsNet(b, bal, env, cap);
    var (b', bal') := W.CrankSlots(b, bal, env, cap);
    FundedBy(bal, bal', b, b', -BatchPayment(b, bal, env, cap));
  }

  lemma ProcessCancelBatchSteps(w: W.World, env: Env, id: U64, maxRefunds: U32, op: OpId, b': Book, bal': Balances)
    requires W.ProcessCancelBatch(w, env, id, maxRefunds, op).Ok? && id in w.books
    requires (b', bal') == W.CrankSlots(w.books[id], w.bal, env, Min(maxRefunds, MAX_REFUNDS_PER_BATCH))
    requires b' == Apply(w.books[id], BatchOp(w.books[id], w.bal, env, maxRefunds))
    ensures TakesStep(w, W.ProcessCancelBatch(w, env, id, maxRefunds, op).value.0, id,
                      BatchOp(w.books[id], w.bal, env, maxRefunds))
    ensures W.ProcessCancelBatch(w, env, id, maxRefunds, op).value.0.bal == bal'
  {
  }

  // ---- finalize_cancel and claim_refund ------------------------------------------------

  lemma FinalizeCancelSteps(w: W.World, env: Env, id: U64, op: OpId)
    requires W.FinalizeCancel(w, env, id, op).Ok?
    ensures TakesStep(w, W.FinalizeCancel(w, env, id, op).value, id, Op.FinalizeCancel)
  {
  }

  lemma FinalizeNet(b: Book)
    requires b.cancel.Some?
    ensures NetOf(FinalizeStep(b)) == NetOf(b) - Max(0, OwnerResidual(b.cancel.value))
    ensures FinalizeStep(b).ev.token == b.ev.token && FinalizeStep(b).ev.id == b.ev.id
  {
    var residual := OwnerResidual(b.cancel.value);
    if residual > 0 {
      AppendNet(b.moves, Residual(residual));
      assert FinalizeStep(b).moves == b.moves + [Residual(residual)];
    } else {
      assert FinalizeStep(b).moves == b.moves;
    }
  }

  lemma FinalizeTransfer(w: W.World, env: Env, id: U64, op: OpId)
    requires W.FinalizeCancel(w, env, id, op).Ok? && id in w.books
    ensures w.books[id].cancel.Some?
    ensures Gains(w.bal, W.FinalizeCancel(w, env, id, op).value.bal, w.books[id].ev.token,
                  -Max(0, OwnerResidual(w.books[id].cancel.value)))
  {
    var b := w.books[id];
    var residual := OwnerResidual(b.cancel.value);
    if residual > 0 {
      ReleaseEffect(w.bal, env, b.ev.token, b.ev.owner, residual);
    }
  }

  lemma FinalizeCancelFunded(w: W.World, env: Env, id: U64, op: OpId)
    requires W.FinalizeCancel(w, env, id, op).Ok? && id in w.books
    ensures Funded(w.bal, W.FinalizeCancel(w, env, id, op).value.bal, w.books[id], FinalizeStep(w.books[id]))
  {
    var b := w.books[id];
    FinalizeTransfer(w, env, id, op);
    FinalizeNet(b);
    FundedBy(w.bal, W.FinalizeCancel(w, env, id, op).value.bal, b, FinalizeStep(b),
             -Max(0, OwnerResidual(b.cancel.value)));
  }

  lemma CollectNet(b: Book, c: Address)
    ensures NetOf(Collect(b, c)) == NetOf(b) - HeldOf(b.held, c)
    ensures Collect(b, c).ev == b.ev
  {
    RefundNet(b.moves, c, HeldOf(b.held, c));
    assert Collect(b, c).moves == b.moves + [Refund(c, HeldOf(b.held, c))];
  }

  lemma ClaimRefundTransfer(w: W.World, env: Env, id: U64, contributor: Address, op: OpId)
    requires W.ClaimRefund(w, env, id, contributor, op).Ok? && id in w.books
    ensures Gains(w.bal, W.ClaimRefund(w, env, id, contributor, op).value.bal, w.books[id].ev.token,
                  -HeldOf(w.books[id].held, contributor))
  {
    var b := w.books[id];
    ReleaseEffect(w.bal, env, b.ev.token, contributor, HeldOf(b.held, contributor));
  }

  lemma ClaimRefundSteps(w: W.World, env: Env, id: U64, contributor: Address, op: OpId)
    requires W.ClaimRefund(w, env, id, contributor, op).Ok?
    ensures TakesStep(w, W.ClaimRefund(w, env, id, contributor, op).value, id, CollectRefund(contributor))
  {
  }

  lemma ClaimRefundFunded(w: W.World, env: Env, id: U64, contributor: Address, op: OpId)
    requires W.ClaimRefund(w, env, id, contributor, op).Ok? && id in w.books
    ensures Funded(w.bal, W.ClaimRefund(w, env, id, contributor, op).value.bal, w.books[id],
                   Collect(w.books[id], contributor))
  {
    var b := w.books[id];
    ClaimRefundTransfer(w, env, id, contributor, op);
    CollectNet(b, contributor);
    FundedBy(w.bal, W.ClaimRefund(w, env, id, contributor, op).value.bal, b, Collect(b, contributor),
             -HeldOf(b.held, contributor));
  }

  // ---- select_winners ------------------------------------------------------------------

  lemma SelectSingleSteps(w: W.World, env: Env, id: U64, specs: seq<WinnerSpec>, op: OpId)
    requires W.SelectWinners(w, env, id, specs, op).Ok? && id in w.books && w.books[id].ev.releaseKind.Single?
    ensures TakesStep(w, W.SelectWinners(w, env, id, specs, op).value, id, SelectPrizes(specs, W.OpenTime(w, env.now)))
    ensures W.SelectWinners(w, env, id, specs, op).value.bal == w.bal
  {
  }

  lemma SelectGrantSteps(w: W.World, env: Env, id: U64, specs: seq<WinnerSpec>, op: OpId)
    requires W.SelectWinners(w, env, id, specs, op).Ok? && id in w.books && !w.books[id].ev.releaseKind.Single?
    requires TermsInv(w.books[id].ev)
    ensures TakesStep(w, W.SelectWinners(w, env, id, specs, op).value, id, SelectGrants(specs))
    ensures W.SelectWinners(w, env, id, specs, op).value.bal == w.bal
  {
  }

  lemma SelectFunded(bal: Balances, b: Book, specs: seq<WinnerSpec>, now: U64)
    ensures Funded(bal, bal, b, SelectPrizesStep(b, specs, now))
    ensures Funded(bal, bal, b, SelectGrantsStep(b, specs))
  {
    SelectPrizesFrame(b, specs, now);
  }

  // ---- claim_prize ---------------------------------------------------------------------

  lemma ClaimPrizeSteps(w: W.World, env: Env, id: U64, position: U32, op: OpId)
    requires W.ClaimPrize(w, env, id, position, op).Ok?
    ensures TakesStep(w, W.ClaimPrize(w, env, id, position, op).value, id, Op.ClaimPrize(position, env.now))
  {
  }

  lemma ClaimPrizeNet(b: Book, position: U32, now: U64)
    requires ClaimPrizeOk(b, position)
    ensures var b' := ClaimPrizeStep(b, position, now);
            && NetOf(b') == NetOf(b) - b.rows[b.prizes.awards[position].anchorIdx].amount
            && b'.ev.token == b.ev.token && b'.ev.id == b.ev.id
  {
    var row := b.rows[b.prizes.awards[position].anchorIdx];
    AppendNet(b.moves, Payout(row.recipient, row.amount));
    assert ClaimPrizeStep(b, position, now).moves == b.moves + [Payout(row.recipient, row.amount)];
  }

  lemma ClaimPrizeTransfer(w: W.World, env: Env, id: U64, position: U32, op: OpId)
    requires W.ClaimPrize(w, env, id, position, op).Ok? && id in w.books
    ensures ClaimPrizeOk(w.books[id], position)
    ensures Gains(w.bal, W.ClaimPrize(w, env, id, position, op).value.bal, w.books[id].ev.token,
                  -w.books[id].rows[w.books[id].prizes.awards[position].anchorIdx].amount)
  {
    var b := w.books[id];
    var row := b.rows[b.prizes.awards[position].anchorIdx];
    ReleaseEffect(w.bal, env, b.ev.token, row.recipient, row.amount);
  }

  lemma ClaimPrizeFunded(w: W.World, env: Env, id: U64, position: U32, op: OpId)
    requires W.ClaimPrize(w, env, id, position, op).Ok? && id in w.books
    ensures Funded(w.bal, W.ClaimPrize(w, env, id, position, op).value.bal, w.books[id],
                   ClaimPrizeStep(w.books[id], position, env.now))
  {
    var b := w.books[id];
    ClaimPrizeTransfer(w, env, id, position, op);
    ClaimPrizeNet(b, position, env.now);
    FundedBy(w.bal, W.ClaimPrize(w, env, id, position, op).value.bal, b, ClaimPrizeStep(b, position, env.now),
             -b.rows[b.prizes.awards[position].anchorIdx].amount);
  }

  // ---- claim_milestone and forfeit_milestone -------------------------------------------

  lemma ClaimGrantSteps(w: W.World, env: Env, id: U64, recipient: Address, milestone: U32, bump: U32, op: OpId)
    requires W.ClaimMilestone(w, env, id, recipient, milestone, bump, op).Ok?
    requires id in w.books && TermsInv(w.books[id].ev) && !w.books[id].ev.pillar.Crowdfunding?
    ensures TakesStep(w, W.ClaimMilestone(w, env, id, recipient, milestone, bump, op).value, id,
                  ClaimGrant(recipient, milestone, env.now))
  {
  }

  lemma ClaimGrantFunded(w: W.World, env: Env, id: U64, recipient: Address, milestone: U32, bump: U32, op: OpId)
    requires W.ClaimMilestone(w, env, id, recipient, milestone, bump, op).Ok?
    requires id in w.books && TermsInv(w.books[id].ev) && !w.books[id].ev.pillar.Crowdfunding?
    ensures Funded(w.bal, W.ClaimMilestone(w, env, id, recipient, milestone, bump, op).value.bal, w.books[id],
                   ClaimGrantStep(w.books[id], recipient, milestone, env.now))
  {
    var b := w.books[id];
    var amount := GrantShare(b, recipient, milestone).value;
    ClaimGrantSteps(w, env, id, recipient, milestone, bump, op);
    ClaimedGrant(b, recipient, milestone, env.now);
    AppendNet(b.moves, Payout(recipient, amount));
    ReleaseEffect(w.bal, env, b.ev.token, recipient, amount);
  }

  lemma ClaimCampaignSteps(w: W.World, env: Env, id: U64, recipient: Address, milestone: U32, bump: U32, op: OpId)
    requires W.ClaimMilestone(w, env, id, recipient, milestone, bump, op).Ok?
    requires id in w.books && TermsInv(w.books[id].ev) && w.books[id].ev.pillar.Crowdfunding? && w.feeBps <= MAX_FEE_BPS
    ensures TakesStep(w, W.ClaimMilestone(w, env, id, recipient, milestone, bump, op).value, id,
                  MilestoneOp(w.books[id], recipient, milestone,
                              W.EffectiveFeeBps(w, w.books[id].ev.feeBpsOverride), env.now))
  {
    var b := w.books[id];
    var amount := CampaignAmount(b, b.ev.releaseKind.n).value;
    FeeBounds(amount, W.EffectiveFeeBps(w, b.ev.feeBpsOverride));
  }

  lemma CampaignNet(b: Book, milestone: U32, fee: I128, now: U64)
    requires ClaimCampaignOk(b, milestone, fee)
    ensures var b' := ClaimCampaignStep(b, milestone, fee, now);
            && NetOf(b') == NetOf(b) - CampaignAmount(b, b.ev.releaseKind.n).value
            && b'.ev.token == b.ev.token && b'.ev.id == b.ev.id
  {
    var amount := CampaignAmount(b, b.ev.releaseKind.n).value;
    AppendRelease(b.moves, b.ev.owner, amount, fee);
    assert ClaimCampaignStep(b, milestone, fee, now).moves == b.moves + ReleaseMoves(b.ev.owner, amount, fee);
  }

  lemma CampaignTransfer(w: W.World, env: Env, id: U64, recipient: Address, milestone: U32, bump: U32, op: OpId)
    requires W.ClaimMilestone(w, env, id, recipient, milestone, bump, op).Ok?
    requires id in w.books && TermsInv(w.books[id].ev) && w.books[id].ev.pillar.Crowdfunding? && w.feeBps <= MAX_FEE_BPS
    ensures var b := w.books[id]; var amount := CampaignAmount(b, b.ev.releaseKind.n);
            && amount.Ok?
            && Gains(w.bal, W.ClaimMilestone(w, env, id, recipient, milestone, bump, op).value.bal, b.ev.token,
                  -amount.value)
            && ClaimCampaignOk(b, milestone, ComputeFee(amount.value, W.EffectiveFeeBps(w, b.ev.feeBpsOverride)))
  {
    var b := w.books[id];
    var amount := CampaignAmount(b, b.ev.releaseKind.n).value;
    var bps := W.EffectiveFeeBps(w, b.ev.feeBpsOverride);
    FeeBounds(amount, bps);
    ReleaseWithFeeEffect(w.bal, env, b.ev.token, recipient, w.feeAccount, amount, bps);
  }

  lemma ClaimCampaignFunded(w: W.World, env: Env, id: U64, recipient: Address, milestone: U32, bump: U32, op: OpId)
    requires W.ClaimMilestone(w, env, id, recipient, milestone, bump, op).Ok?
    requires id in w.books && TermsInv(w.books[id].ev) && w.books[id].ev.pillar.Crowdfunding? && w.feeBps <= MAX_FEE_BPS
    ensures var b := w.books[id]; var bps := W.EffectiveFeeBps(w, b.ev.feeBpsOverride);
            Funded(w.bal, W.ClaimMilestone(w, env, id, recipient, milestone, bump, op).value.bal, b,
                   ClaimCampaignStep(b, milestone, ComputeFee(CampaignAmount(b, b.ev.releaseKind.n).GetOr(0), bps),
                         env.now))
  {
    var b := w.books[id];
    var amount := CampaignAmount(b, b.ev.releaseKind.n).value;
    var fee := ComputeFee(amount, W.EffectiveFeeBps(w, b.ev.feeBpsOverride));
    CampaignTransfer(w, env, id, recipient, milestone, bump, op);
    CampaignNet(b, milestone, fee, env.now);
    FundedBy(w.bal, W.ClaimMilestone(w, env, id, recipient, milestone, bump, op).value.bal, b,
             ClaimCampaignStep(b, milestone, fee, env.now), -amount);
  }

  lemma ForfeitMilestoneSteps(w: W.World, env: Env, id: U64, recipient: Address, milestone: U32, op: OpId)
    requires W.ForfeitMilestone(w, env, id, recipient, milestone, op).Ok?
    ensures TakesStep(w, W.ForfeitMilestone(w, env, id, recipient, milestone, op).value, id,
          ForfeitGrant(recipient, milestone))
    ensures Funded(w.bal, W.ForfeitMilestone(w, env, id, recipient, milestone, op).value.bal, w.books[id],
                   ForfeitGrantStep(w.books[id], recipient, milestone))
  {
  }
}
