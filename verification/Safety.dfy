/** Every call keeps the invariant of the whole contract. */
module Safety {
  import opened Numeric
  import opened Types
  import opened Escrow
  import opened Milestones
  import opened Books
  import opened Audit
  import opened Invariants
  import opened Steps
  import opened Preservation
  import opened Calls
  import opened Backing
  import W = World

  /** One enabled step on one book, paid for by that event's own transfers. */
  ghost predicate Acts(w: W.World, w': W.World, id: U64, op: Op) {
    && TakesStep(w, w', id, op)
    && Funded(w.bal, w'.bal, w.books[id], Apply(w.books[id], op))
  }

  // ---- every call that names an event ---------------------------------------------------

  lemma EscrowWithinBalance(w: W.World, id: U64)
    requires BooksInv(w) && Backed(w) && id in w.books && w.books[id].ev.status.Active?
    ensures w.books[id].ev.remainingEscrow <= BalanceOf(w.bal, w.books[id].ev.token, SELF)
  {
    NetCoversLiability(w.books[id]);
    NetsNonNegative(w);
    assert BackedIn(w.books, w.bal, w.books[id].ev.token);
    NetWithinBalance(w.books, w.bal, id);
  }

  lemma AddFundsActs(w: W.World, env: Env, id: U64, from: Address, amount: I128, op: OpId)
    requires BooksInv(w) && Backed(w) && W.AddFunds(w, env, id, from, amount, op).Ok?
    ensures id in w.books
    ensures Acts(w, W.AddFunds(w, env, id, from, amount, op).value, id,
                 Fund(from, amount, W.ContributionFee(w, w.books[id].ev, amount)))
  {
    EscrowWithinBalance(w, id);
    AddFundsSteps(w, env, id, from, amount, op);
    AddFundsFunded(w, env, id, from, amount, op);
  }

  lemma BatchActs(w: W.World, env: Env, id: U64, maxRefunds: U32, op: OpId)
    requires W.ProcessCancelBatch(w, env, id, maxRefunds, op).Ok?
    ensures id in w.books
    ensures Acts(w, W.ProcessCancelBatch(w, env, id, maxRefunds, op).value.0, id,
                 BatchOp(w.books[id], w.bal, env, maxRefunds))
  {
    var cap := Min(maxRefunds, MAX_REFUNDS_PER_BATCH);
    var (b', bal') := W.CrankSlots(w.books[id], w.bal, env, cap);
    CrankSlotsBook(w.books[id], w.bal, env, cap);
    CrankSlotsFunded(w.books[id], w.bal, env, cap);
    ProcessCancelBatchSteps(w, env, id, maxRefunds, op, b', bal');
  }

  lemma StartCancelActs(w: W.World, env: Env, id: U64, op: OpId)
    requires W.StartCancel(w, env, id, op).Ok?
    ensures Acts(w, W.StartCancel(w, env, id, op).value, id, Op.StartCancel)
  {
    StartCancelSteps(w, env, id, op);
    StartCancelFunded(w, env, id, op);
  }

  lemma FinalizeCancelActs(w: W.World, env: Env, id: U64, op: OpId)
    requires W.FinalizeCancel(w, env, id, op).Ok?
    ensures Acts(w, W.FinalizeCancel(w, env, id, op).value, id, Op.FinalizeCancel)
  {
    FinalizeCancelSteps(w, env, id, op);
    FinalizeCancelFunded(w, env, id, op);
  }

  lemma SelectActs(w: W.World, env: Env, id: U64, specs: seq<WinnerSpec>, op: OpId)
    requires W.SelectWinners(w, env, id, specs, op).Ok? && id in w.books && TermsInv(w.books[id].ev)
    ensures Acts(w, W.SelectWinners(w, env, id, specs, op).value, id,
                 SelectOp(w.books[id], specs, W.OpenTime(w, env.now)))
  {
    SelectFunded(w.bal, w.books[id], specs, W.OpenTime(w, env.now));
    if w.books[id].ev.releaseKind.Single? {
      SelectSingleSteps(w, env, id, specs, op);
    } else {
      SelectGrantSteps(w, env, id, specs, op);
    }
  }

  lemma ClaimPrizeActs(w: W.World, env: Env, id: U64, position: U32, op: OpId)
    requires W.ClaimPrize(w, env, id, position, op).Ok?
    ensures Acts(w, W.ClaimPrize(w, env, id, position, op).value, id, Op.ClaimPrize(position, env.now))
  {
    ClaimPrizeSteps(w, env, id, position, op);
    ClaimPrizeFunded(w, env, id, position, op);
  }

  lemma ClaimMilestoneActs(w: W.World, env: Env, id: U64, recipient: Address, milestone: U32, bump: U32, op: OpId)
    requires W.ClaimMilestone(w, env, id, recipient, milestone, bump, op).Ok?
    requires id in w.books && TermsInv(w.books[id].ev) && w.feeBps <= MAX_FEE_BPS
    ensures Acts(w, W.ClaimMilestone(w, env, id, recipient, milestone, bump, op).value, id,
                 MilestoneOp(w.books[id], recipient, milestone,
                             W.EffectiveFeeBps(w, w.books[id].ev.feeBpsOverride), env.now))
  {
    if w.books[id].ev.pillar.Crowdfunding? {
      ClaimCampaignSteps(w, env, id, recipient, milestone, bump, op);
      ClaimCampaignFunded(w, env, id, recipient, milestone, bump, op);
    } else {
      ClaimGrantSteps(w, env, id, recipient, milestone, bump, op);
      ClaimGrantFunded(w, env, id, recipient, milestone, bump, op);
    }
  }

  /** The call c took the state w to Step(w, env, c) by its step on its event. */
  ghost predicate CallIsStep(w: W.World, env: Env, c: Call)
    requires EventOf(c).Some?
  {
    var id := EventOf(c).value;
    id in w.books && Acts(w, Step(w, env, c), id, OpOf(w, env, c, w.books[id]))
  }

  lemma SelectCallActs(w: W.World, env: Env, c: Call)
    requires BooksInv(w) && c.SelectWinners? && Exec(w, env, c).Ok?
    ensures CallIsStep(w, env, c)
  {
    SelectActs(w, env, c.id, c.specs, c.op);
  }

  lemma ClaimCallActs(w: W.World, env: Env, c: Call)
    requires c.ClaimPrize? && Exec(w, env, c).Ok?
    ensures CallIsStep(w, env, c)
  {
    ClaimPrizeActs(w, env, c.id, c.position, c.op);
  }

  lemma FundCallActs(w: W.World, env: Env, c: Call)
    requires BooksInv(w) && Backed(w) && c.AddFunds? && Exec(w, env, c).Ok?
    ensures CallIsStep(w, env, c)
  {
    AddFundsActs(w, env, c.id, c.from, c.amount, c.op);
  }

  lemma CancelCallActs(w: W.World, env: Env, c: Call)
    requires Exec(w, env, c).Ok?
    requires c.StartCancel? || c.ProcessCancelBatch? || c.FinalizeCancel?
    ensures CallIsStep(w, env, c)
  {
    match c
    case StartCancel(id, op) => StartCancelActs(w, env, id, op);
    case ProcessCancelBatch(id, maxRefunds, op) => BatchActs(w, env, id, maxRefunds, op);
    case FinalizeCancel(id, op) => FinalizeCancelActs(w, env, id, op);
  }

  lemma MilestoneCallActs(w: W.World, env: Env, c: Call)
    requires BooksInv(w) && w.feeBps <= MAX_FEE_BPS && c.ClaimMilestone? && Exec(w, env, c).Ok?
    ensures CallIsStep(w, env, c)
  {
    ClaimMilestoneActs(w, env, c.id, c.recipient, c.milestone, c.reputationBump, c.op);
  }

  lemma ForfeitCallActs(w: W.World, env: Env, c: Call)
    requires c.ForfeitMilestone? && Exec(w, env, c).Ok?
    ensures CallIsStep(w, env, c)
  {
    ForfeitMilestoneSteps(w, env, c.id, c.recipient, c.milestone, c.op);
  }

  lemma OtherCallActs(w: W.World, env: Env, c: Call)
    requires (c.ClaimRefund? || c.Delegate?) && Exec(w, env, c).Ok?
    ensures CallIsStep(w, env, c)
  {
    if c.ClaimRefund? {
      ClaimRefundSteps(w, env, c.id, c.contributor, c.op);
      ClaimRefundFunded(w, env, c.id, c.contributor, c.op);
    }
  }

  /** A call that names an event and succeeds is one step of that event. */
  lemma CallActs(w: W.World, env: Env, c: Call)
    requires WorldInv(w) && EventOf(c).Some? && Exec(w, env, c).Ok?
    ensures CallIsStep(w, env, c)
  {
    if c.AddFunds? {
      FundCallActs(w, env, c);
    } else if c.SelectWinners? {
      SelectCallActs(w, env, c);
    } else if c.ClaimPrize? {
      ClaimCallActs(w, env, c);
    } else if c.StartCancel? || c.ProcessCancelBatch? || c.FinalizeCancel? {
      CancelCallActs(w, env, c);
    } else if c.ClaimMilestone? {
      MilestoneCallActs(w, env, c);
    } else if c.ForfeitMilestone? {
      ForfeitCallActs(w, env, c);
    } else {
      OtherCallActs(w, env, c);
    }
  }

  // ---- create_event ----------------------------------------------------------------------

  /** What a created event starts from. */
  ghost predicate Opens(w: W.World, w': W.World, id: U64, b: Book) {
    && id !in w.books && BookInv(b) && b.ev.id == id && b.ev.status.Active?
    && (w.nextId.Some? ==> w.nextId.value <= id) && id < U64_MAX
    && w' == w.(books := w.books[id := b], bal := w'.bal, seen := w'.seen, nextId := Some(id + 1))
    && Gains(w.bal, w'.bal, b.ev.token, NetOf(b))
  }

  lemma SplitKind(p: CreateEventParams)
    requires ReleaseKindFits(p.pillar, p.releaseKind)
    requires p.releaseKind.Split? ==> ValidSplit(p.releaseKind.shares)
    ensures p.pillar.Grant? ==> GrantKind(p.releaseKind)
  {
  }

  /** The transfer that funds an event, if it is funded at once. */
  lemma CreateTransfer(w: W.World, env: Env, p: CreateEventParams, op: OpId)
    requires W.CreateEvent(w, env, p, op).Ok?
    ensures var fee := ComputeFee(p.totalBudget, W.EffectiveFeeBps(w, p.feeBpsOverride));
            && p.totalBudget > 0 && fee >= 0
            && (!p.pillar.Crowdfunding? ==> p.totalBudget + fee <= I128_MAX)
    ensures Gains(w.bal, W.CreateEvent(w, env, p, op).value.0.bal, p.token,
                  if p.pillar.Crowdfunding? then 0 else p.totalBudget)
  {
    var bps := W.EffectiveFeeBps(w, p.feeBpsOverride);
    if p.pillar.Crowdfunding? {
      MulNonNegative(p.totalBudget, bps);
    } else {
      DepositEffect(w.bal, env, p.token, p.owner, w.feeAccount, p.totalBudget, bps);
    }
  }

  lemma NewBookNet(ev: EventRecord, fee: I128)
    requires fee >= 0 && ev.totalBudget > 0
    requires !ev.pillar.Crowdfunding? ==> ev.totalBudget + fee <= I128_MAX
    ensures NetOf(NewBook(ev, fee)) == if ev.pillar.Crowdfunding? then 0 else ev.totalBudget
  {
    if !ev.pillar.Crowdfunding? {
      AppendDeposit([], ev.owner, ev.totalBudget, fee);
      assert [] + DepositMoves(ev.owner, ev.totalBudget, fee) == NewBook(ev, fee).moves;
    }
  }

  lemma CreateRecord(w: W.World, env: Env, p: CreateEventParams, op: OpId, id: U64, b: Book)
    requires W.CreateEvent(w, env, p, op).Ok?
    requires id == W.CreateEvent(w, env, p, op).value.1
    requires b == NewBook(W.NewRecord(p, id), ComputeFee(p.totalBudget, W.EffectiveFeeBps(w, p.feeBpsOverride)))
    ensures var w' := W.CreateEvent(w, env, p, op).value.0;
            && w.nextId.GetOr(id) <= id < U64_MAX
            && w' == w.(books := w.books[id := b], bal := w'.bal, seen := w'.seen, nextId := Some(id + 1))
    ensures ReleaseKindFits(p.pillar, p.releaseKind)
    ensures p.releaseKind.Split? ==> ValidSplit(p.releaseKind.shares)
    ensures p.feeBpsOverride.Some? ==> p.feeBpsOverride.value <= MAX_FEE_BPS
  {
  }

  lemma FreshId(w: W.World, id: U64)
    requires BooksInv(w) && (w.nextId.Some? ==> w.nextId.value <= id)
    ensures id !in w.books
  {
  }

  lemma CreateOpens(w: W.World, env: Env, p: CreateEventParams, op: OpId)
    requires BooksInv(w) && W.CreateEvent(w, env, p, op).Ok?
    ensures var (w', id) := W.CreateEvent(w, env, p, op).value;
            id in w'.books && Opens(w, w', id, w'.books[id])
  {
    var (w', id) := W.CreateEvent(w, env, p, op).value;
    var fee := ComputeFee(p.totalBudget, W.EffectiveFeeBps(w, p.feeBpsOverride));
    var ev := W.NewRecord(p, id);
    CreateRecord(w, env, p, op, id, NewBook(ev, fee));
    CreateTransfer(w, env, p, op);
    SplitKind(p);
    NewBookInv(ev, fee);
    NewBookNet(ev, fee);
    FreshId(w, id);
  }

  lemma OpenedBooks(w: W.World, w': W.World, id: U64, b: Book)
    requires BooksInv(w) && Opens(w, w', id, b)
    ensures BooksInv(w')
  {
    forall i | i in w'.books
      ensures BookInv(w'.books[i]) && w'.books[i].ev.id == i && i < w'.nextId.value
    {
      if i != id {
        assert i in w.books;
      }
    }
  }

  // ---- every call ------------------------------------------------------------------------

  /** What the model asks of its surroundings: no contribution total and no row count runs
      past its integer width, and no other account takes tokens out of the contract. */
  ghost predicate Premise(w: W.World, c: Call) {
    match c
    case AddFunds(id, from, amount, _) => id in w.books ==> FundFits(w.books[id], from, amount)
    case SelectWinners(id, specs, _) =>
      id in w.books && w.books[id].ev.releaseKind.Single? ==> SelectPrizesFits(w.books[id], specs)
    case External(bal) => forall t :: BalanceOf(w.bal, t, SELF) <= BalanceOf(bal, t, SELF)
    case _ => true
  }

  lemma PremiseFits(w: W.World, env: Env, c: Call)
    requires Premise(w, c) && EventOf(c).Some? && EventOf(c).value in w.books
    ensures Fits(w.books[EventOf(c).value], OpOf(w, env, c, w.books[EventOf(c).value]))
  {
  }

  /** A step of one event keeps the invariant of all of them. */
  lemma ActionKeeps(w: W.World, w': W.World, id: U64, op: Op)
    requires WorldInv(w) && Acts(w, w', id, op) && Fits(w.books[id], op)
    ensures WorldInv(w')
  {
    var b := w.books[id];
    StepKeepsBook(b, op);
    KeepsBooks(w, w', id, Apply(b, op));
    KeepsBacked(w, w', id, Apply(b, op));
  }

  lemma CreateKeeps(w: W.World, env: Env, c: Call)
    requires WorldInv(w) && c.CreateEvent? && Exec(w, env, c).Ok?
    ensures WorldInv(Step(w, env, c))
  {
    CreateOpens(w, env, c.params, c.op);
    var (w', id) := W.CreateEvent(w, env, c.params, c.op).value;
    OpenedBooks(w, w', id, w'.books[id]);
    KeepsBacked(w, w', id, w'.books[id]);
  }

  /** The books are as they were, the contract lost nothing, and the settings are in bounds. */
  ghost predicate OnlySettings(w: W.World, w': W.World) {
    && w'.books == w.books && w'.nextId == w.nextId
    && (forall t :: BalanceOf(w.bal, t, SELF) <= BalanceOf(w'.bal, t, SELF))
    && (w.feeBps <= MAX_FEE_BPS ==> w'.feeBps <= MAX_FEE_BPS)
    && ((w.paused <==> w.pausedAt.Some?) ==> (w'.paused <==> w'.pausedAt.Some?))
  }

  lemma AdministerOnlySettings(w: W.World, env: Env, c: Call)
    requires Premise(w, c) && EventOf(c).None? && !c.CreateEvent? && Administer(w, env, c).Ok?
    ensures OnlySettings(w, Administer(w, env, c).value)
  {
  }

  lemma SettingsKeep(w: W.World, w': W.World)
    requires WorldInv(w) && OnlySettings(w, w')
    ensures WorldInv(w')
  {
    assert BooksInv(w');
    forall t
      ensures BackedIn(w'.books, w'.bal, t)
    {
      assert BackedIn(w.books, w.bal, t);
    }
  }

  /** A call on no event keeps the invariant. */
  lemma OtherCallKeeps(w: W.World, env: Env, c: Call)
    requires WorldInv(w) && Premise(w, c) && EventOf(c).None? && !c.CreateEvent? && Administer(w, env, c).Ok?
    ensures WorldInv(Administer(w, env, c).value)
  {
    AdministerOnlySettings(w, env, c);
    SettingsKeep(w, Administer(w, env, c).value);
  }

  /** Every call, whoever makes it and whatever the token answers, keeps the invariant. */
  lemma StepKeepsWorld(w: W.World, env: Env, c: Call)
    requires WorldInv(w) && Premise(w, c)
    ensures WorldInv(Step(w, env, c))
  {
    if Exec(w, env, c).Ok? {
      if c.CreateEvent? {
        CreateKeeps(w, env, c);
      } else if EventOf(c).Some? {
        var id := EventOf(c).value;
        CallActs(w, env, c);
        PremiseFits(w, env, c);
        ActionKeeps(w, Step(w, env, c), id, OpOf(w, env, c, w.books[id]));
      } else {
        OtherCallKeeps(w, env, c);
      }
    }
  }
}
