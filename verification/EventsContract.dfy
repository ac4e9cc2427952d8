/** The contract as it runs: an object whose entry points read, update and rewrite what is
    stored, and put it all back when they fail. Each is proved to do exactly what its
    function in module World says, so everything proved of runs of those functions holds of
    runs of this object. */
module EventsContract {
  import opened Numeric
  import opened Types
  import opened Escrow
  import opened Milestones
  import opened Refunds
  import opened Books
  import opened Validation
  import W = World

  /** A method that answered r did what the function says: the new state, or the error and
      the old state. */
  ghost predicate Follows(before: W.World, after: W.World, r: Result<()>, spec: Result<W.World>) {
    match spec
    case Ok(w) => r == Ok(()) && after == w
    case Err(e) => r == Err(e) && after == before
  }

  /** The same for transfers, which change balances only. */
  ghost predicate Moves(before: Balances, after: Balances, o: Outcome, spec: Result<Balances>) {
    match spec
    case Ok(b) => o == Pass && after == b
    case Err(e) => o == Fail(e) && after == before
  }

  /** Who a call acts for must have authorised it, with an operation id not used before. */
  function Admission(w: W.World, env: Env, domain: Address, op: OpId): Outcome {
    var auth := W.RequireAuth(env, domain);
    if auth.Fail? then auth else W.RequireUnseen(w, domain, op)
  }

  /** The state after a call that paid for its changes, if the token let it. */
  ghost function PaidWorld(w: W.World, id: U64, b: Book, domain: Address, op: OpId,
                           paid: Result<Balances>): Result<W.World> {
    if paid.Ok? then Ok(W.Commit(w, id, b, paid.value, domain, op)) else Err(paid.error)
  }

  // ---- what is written to one event ------------------------------------------------------

  /** Writes a contribution to the escrow, the contributor's amount and the total. */
  method WriteContribution(b: Book, from: Address, roll: Roll, total: I128, amount: I128, fee: I128) returns (b': Book)
    ensures b' == Credit(b, from, roll, total, amount, fee)
  {
    b' := b.(moves := b.moves + DepositMoves(from, amount, fee));
    b' := b'.(ev := b'.ev.(remainingEscrow := SatAdd(b.ev.remainingEscrow, amount)));
    if from != b.ev.owner {
      var prior := AmountOf(b.roll, from);
      b' := b'.(roll := roll.(amt := roll.amt[from := SatAdd(prior, amount)]));
      b' := b'.(nonOwnerTotal := Some(SatAdd(total, amount)));
    }
  }

  /** Closes an event nobody else has paid into. */
  method WriteOwnerCancel(b: Book, total: I128) returns (b': Book)
    requires BranchFor(b.ev.remainingEscrow, total).OwnerOnly?
    ensures b' == BeginCancel(b, total)
  {
    var remaining := b.ev.remainingEscrow;
    b' := b.(owed := 0);
    if remaining > 0 {
      b' := b'.(moves := b.moves + [Residual(remaining)]);
    } else {
      assert b.moves + [] == b.moves;
    }
    b' := b'.(ev := b.ev.(remainingEscrow := 0, status := Cancelled));
    b' := b'.(nonOwnerTotal := Some(0));
  }

  /** Fixes the terms on which the contributors of an event will be refunded. */
  method WriteTerms(b: Book, total: I128) returns (b': Book)
    requires !BranchFor(b.ev.remainingEscrow, total).OwnerOnly?
    ensures b' == BeginCancel(b, total)
  {
    var remaining := b.ev.remainingEscrow;
    var count := Min(|b.roll.list|, U32_MAX);
    b' := b.(owed := 0, nonOwnerTotal := Some(total));
    b' := b'.(cancel := Some(CancellationState(total, remaining, count, 0, BranchFor(remaining, total))));
    b' := b'.(ev := b.ev.(status := Cancelling));
  }

  /** Marks a prize row paid and takes it out of the reservation and the escrow. */
  method WritePrizePaid(b: Book, anchor: U32, now: U64) returns (r: Result<Book>)
    requires anchor < |b.rows| && b.rows[anchor].amount > 0
    ensures r == if b.owed >= b.rows[anchor].amount then Ok(PayPrize(b, anchor, now)) else Err(InsufficientEscrow)
  {
    var row := b.rows[anchor];
    var amount := row.amount;
    var b' := b.(rows := b.rows[anchor := Winner(row.recipient, row.position, amount, None, Some(now))]);
    b' := b'.(prizes := b.prizes.(unclaimed := SatSub32(b.prizes.unclaimed, 1)));
    if b.owed - amount < 0 {
      return Err(InsufficientEscrow);
    }
    b' := b'.(owed := b.owed - amount);
    b' := b'.(ev := b.ev.(remainingEscrow := SatSub(b.ev.remainingEscrow, amount)));
    if b'.ev.remainingEscrow == 0 {
      b' := b'.(ev := b'.ev.(status := Completed));
    }
    return Ok(b'.(moves := b.moves + [Payout(row.recipient, amount)]));
  }

  /** Records a settled milestone, and takes it out of the reservation. */
  method WriteSettlement(b: Book, recipient: Address, milestone: U32, amount: I128) returns (r: Result<Book>)
    ensures r == Forfeit(b, recipient, milestone, amount)
  {
    var b' := b.(flags := Flag(b.flags, recipient, milestone));
    if !(0 <= b.owed - amount <= I128_MAX) {
      return Err(InsufficientEscrow);
    }
    b' := b'.(owed := b.owed - amount);
    var p := ProgressOf(b.progress, recipient);
    b' := b'.(progress := b.progress[
      recipient := GrantProgress(SatAdd32(p.settled, 1), SatAdd(p.settledAmount, amount))]);
    return Ok(b');
  }

  /** Records a milestone paid out of the escrow. */
  method WriteGrantPaid(b: Book, recipient: Address, position: U32, milestone: U32, amount: I128, now: U64)
    returns (r: Result<Book>)
    ensures r == PayGrant(b, recipient, position, milestone, amount, now)
  {
    var settled := WriteSettlement(b, recipient, milestone, amount);
    if settled.Err? {
      return settled;
    }
    var b' := settled.value;
    b' := b'.(rows := AppendWinner(b.rows, Winner(recipient, position, amount, Some(milestone), Some(now))));
    b' := b'.(ev := b.ev.(remainingEscrow := SatSub(b.ev.remainingEscrow, amount)));
    if b'.ev.remainingEscrow == 0 {
      b' := b'.(ev := b'.ev.(status := Completed));
    }
    return Ok(b'.(moves := b.moves + [Payout(recipient, amount)]));
  }

  /** Records a campaign release out of the escrow. */
  method WriteCampaignPaid(b: Book, milestone: U32, amount: I128, fee: I128, now: U64) returns (b': Book)
    ensures b' == PayCampaign(b, milestone, amount, fee, now)
  {
    b' := b.(flags := Flag(b.flags, b.ev.owner, milestone));
    b' := b'.(campaignClaimed := SatAdd32(b.campaignClaimed, 1));
    b' := b'.(rows := AppendWinner(b.rows, Winner(b.ev.owner, 1, amount, Some(milestone), Some(now))));
    b' := b'.(ev := b.ev.(remainingEscrow := SatSub(b.ev.remainingEscrow, amount)));
    if b'.ev.remainingEscrow == 0 {
      b' := b'.(ev := b'.ev.(status := Completed));
    }
    b' := b'.(moves := b.moves + ReleaseMoves(b.ev.owner, amount, fee));
  }

  class Contract {
    var bal: Balances
    var books: map<U64, Book>
    var nextId: Option<U64>
    var seen: set<(Address, OpId)>
    var paused: bool
    var pausedAt: Option<U64>
    var pausedSeconds: U64
    var feeBps: U32
    var feeAccount: Address
    var admin: Address
    var validator: Option<Address>
    var supported: set<Address>
    var deploymentSeq: U32

    function View(): W.World
      reads this
    {
      W.World(bal, books, nextId, seen, paused, pausedAt, pausedSeconds, feeBps, feeAccount, admin, validator,
              supported, deploymentSeq)
    }

    constructor (bal: Balances, admin: Address, feeAccount: Address, feeBps: U32, deploymentSeq: U32)
      requires feeBps <= MAX_FEE_BPS
      ensures Ok(View()) == W.Deployed(bal, admin, feeAccount, feeBps, deploymentSeq)
    {
      this.bal, this.admin, this.feeAccount, this.feeBps := bal, admin, feeAccount, feeBps;
      this.deploymentSeq := deploymentSeq;
      books, nextId, seen, supported := map[], None, {}, {};
      paused, pausedAt, pausedSeconds, validator := false, None, 0, None;
    }

    // ---- escrow.rs -----------------------------------------------------------------------

    method MoveTokens(env: Env, token: Address, from: Address, to: Address, amount: I128) returns (o: Outcome)
      modifies `bal
      ensures Moves(old(bal), bal, o, Transfer(old(bal), env, token, from, to, amount))
    {
      var moved := Transfer(bal, env, token, from, to, amount);
      if moved.Err? {
        return Fail(moved.error);
      }
      bal := moved.value;
      return Pass;
    }

    method TakeWithFee(env: Env, token: Address, from: Address, amount: I128, bps: U32) returns (o: Outcome)
      modifies `bal
      ensures Moves(old(bal), bal, o, DepositWithFee(old(bal), env, token, from, feeAccount, amount, bps))
    {
      var saved := bal;
      var fee := ComputeFee(amount, bps);
      o := MoveTokens(env, token, from, SELF, SatAdd(amount, fee));
      if o == Pass && fee > 0 {
        o := MoveTokens(env, token, SELF, feeAccount, fee);
        if o.Fail? {
          bal := saved;
        }
      }
    }

    method PayOut(env: Env, token: Address, to: Address, amount: I128) returns (o: Outcome)
      modifies `bal
      ensures Moves(old(bal), bal, o, Release(old(bal), env, token, to, amount))
    {
      o := MoveTokens(env, token, SELF, to, amount);
    }

    method PayOutWithFee(env: Env, token: Address, to: Address, amount: I128, bps: U32) returns (o: Outcome)
      modifies `bal
      ensures Moves(old(bal), bal, o, ReleaseWithFee(old(bal), env, token, to, feeAccount, amount, bps))
    {
      var saved := bal;
      var fee := ComputeFee(amount, bps);
      var net := SatSub(amount, fee);
      o := Pass;
      if net > 0 {
        o := MoveTokens(env, token, SELF, to, net);
      }
      if o == Pass && fee > 0 {
        o := MoveTokens(env, token, SELF, feeAccount, fee);
        if o.Fail? {
          bal := saved;
        }
      }
    }

    // ---- guards and the closing writes ----------------------------------------------------

    method Admit(env: Env, domain: Address, op: OpId) returns (o: Outcome)
      ensures o == Admission(View(), env, domain, op)
    {
      if domain !in env.auths || domain == SELF {
        return Fail(Unauthorized);
      }
      if (domain, op) in seen {
        return Fail(OpAlreadySeen);
      }
      return Pass;
    }

    method Save(id: U64, b: Book, domain: Address, op: OpId)
      modifies `books, `seen
      ensures books == old(books)[id := b] && seen == old(seen) + {(domain, op)}
    {
      books := books[id := b];
      seen := seen + {(domain, op)};
    }

    /** Saves what a payout leaves of an event before making it, and puts everything back if
        the token refuses. */
    method SaveThenPay(env: Env, id: U64, b: Book, to: Address, amount: I128, domain: Address, op: OpId)
      returns (r: Result<()>)
      modifies this
      ensures Follows(old(View()), View(), r, PaidWorld(old(View()), id, b, domain, op,
                Release(old(bal), env, b.ev.token, to, amount)))
    {
      var savedBooks, savedSeen := books, seen;
      Save(id, b, domain, op);
      var released := PayOut(env, b.ev.token, to, amount);
      if released.Fail? {
        books, seen := savedBooks, savedSeen;
        return Err(released.error);
      }
      return Ok(());
    }

    // ---- create_event --------------------------------------------------------------------

    method CheckParams(p: CreateEventParams) returns (o: Outcome)
      ensures o == W.CheckParams(View(), p)
    {
      if p.token !in supported {
        return Fail(TokenNotSupported);
      }
      if p.titleLen > MAX_TITLE_LEN {
        return Fail(TitleTooLong);
      }
      if p.totalBudget <= 0 {
        return Fail(InvalidBudget);
      }
      if p.prizeFloors == [] {
        return Fail(InvalidDistribution);
      }
      var floors := TotalFloors(p.prizeFloors);
      if floors.Err? {
        return Fail(floors.error);
      }
      if floors.value > p.totalBudget {
        return Fail(DistributionMismatch);
      }
      if p.feeBpsOverride.Some? && p.feeBpsOverride.value > MAX_FEE_BPS {
        return Fail(InvalidFeeBps);
      }
      if !ReleaseKindFits(p.pillar, p.releaseKind) {
        return Fail(InvalidReleaseKind);
      }
      if p.releaseKind.Split? {
        var valid := SplitIsValid(p.releaseKind.shares);
        if !valid {
          return Fail(InvalidMilestoneSplit);
        }
      }
      return Pass;
    }

    method CreateEvent(env: Env, p: CreateEventParams, op: OpId) returns (r: Result<U64>)
      modifies this
      ensures match W.CreateEvent(old(View()), env, p, op)
              case Ok((w, id)) => r == Ok(id) && View() == w
              case Err(e) => r == Err(e) && View() == old(View())
    {
      if paused {
        return Err(Paused);
      }
      var admitted := Admit(env, p.owner, op);
      if admitted.Fail? {
        return Err(admitted.error);
      }
      var ok := CheckParams(p);
      if ok.Fail? {
        return Err(ok.error);
      }
      r := OpenEvent(env, p, op);
    }

    method OpenEvent(env: Env, p: CreateEventParams, op: OpId) returns (r: Result<U64>)
      modifies this
      ensures match W.OpenEvent(old(View()), env, p, op)
              case Ok((w, id)) => r == Ok(id) && View() == w
              case Err(e) => r == Err(e) && View() == old(View())
    {
      var saved := bal;
      var bps := p.feeBpsOverride.GetOr(feeBps);
      if !p.pillar.Crowdfunding? {
        var taken := TakeWithFee(env, p.token, p.owner, p.totalBudget, bps);
        if taken.Fail? {
          return Err(taken.error);
        }
      }
      var id := nextId.GetOr(W.IdBase(View()) + 1);
      if id + 1 > U64_MAX {
        bal := saved;
        return Err(EventIdOverflow);
      }
      nextId := Some(id + 1);
      Save(id, NewBook(W.NewRecord(p, id), ComputeFee(p.totalBudget, bps)), p.owner, op);
      return Ok(id);
    }

    // ---- add_funds -----------------------------------------------------------------------

    method AddFunds(env: Env, id: U64, from: Address, amount: I128, op: OpId) returns (r: Result<()>)
      modifies this
      ensures Follows(old(View()), View(), r, W.AddFunds(old(View()), env, id, from, amount, op))
    {
      if paused {
        return Err(Paused);
      }
      if amount <= 0 {
        return Err(InvalidContributionAmount);
      }
      if amount < MIN_CONTRIBUTION_STROOPS {
        return Err(BelowMinimumContribution);
      }
      if id !in books {
        return Err(EventNotFound);
      }
      var b := books[id];
      if !b.ev.status.Active? {
        return Err(EventNotActive);
      }
      var admitted := Admit(env, from, op);
      if admitted.Fail? {
        return Err(admitted.error);
      }
      var roll, totalBefore: I128 := b.roll, 0;
      if from != b.ev.owner {
        var total := TotalOrInit(b);
        if total.Err? {
          return Err(total.error);
        }
        totalBefore := total.value;
        if AmountOf(b.roll, from) == 0 {
          var entered := AppendContributor(b.roll, from);
          if entered.Err? {
            return Err(entered.error);
          }
          roll := entered.value;
        }
      }
      assert Enter(b, from) == Ok((roll, totalBefore));
      var paid: Outcome;
      if b.ev.pillar.Crowdfunding? {
        paid := MoveTokens(env, b.ev.token, from, SELF, amount);
      } else {
        paid := TakeWithFee(env, b.ev.token, from, amount, b.ev.feeBpsOverride.GetOr(feeBps));
      }
      if paid.Fail? {
        return Err(paid.error);
      }
      b := WriteContribution(b, from, roll, totalBefore, amount, W.ContributionFee(View(), b.ev, amount));
      Save(id, b, from, op);
      return Ok(());
    }

    // ---- cancellation --------------------------------------------------------------------

    method StartCancel(env: Env, id: U64, op: OpId) returns (r: Result<()>)
      modifies this
      ensures Follows(old(View()), View(), r, W.StartCancel(old(View()), env, id, op))
    {
      if paused {
        return Err(Paused);
      }
      if id !in books {
        return Err(EventNotFound);
      }
      var b := books[id];
      if !b.ev.status.Active? {
        return Err(EventNotActive);
      }
      if b.cancel.Some? {
        return Err(CancellationAlreadyStarted);
      }
      if b.ev.releaseKind.Single? && b.prizes.unclaimed > 0 {
        var expiry := b.prizes.expiry.GetOr(0);
        if W.OpenTime(View(), env.now) <= expiry {
          return Err(WinnersAlreadySelected);
        }
      }
      if b.ev.pillar.Grant? && b.owed > 0 {
        return Err(AwardsOutstanding);
      }
      var manager := ManagerOf(b);
      var admitted := Admit(env, manager, op);
      if admitted.Fail? {
        return Err(admitted.error);
      }
      r := CloseEvent(env, id, b, op);
    }

    method CloseEvent(env: Env, id: U64, b: Book, op: OpId) returns (r: Result<()>)
      modifies this
      ensures Follows(old(View()), View(), r, W.CloseEvent(old(View()), env, id, b, op))
    {
      var total := TotalOrInit(b);
      if total.Err? {
        return Err(total.error);
      }
      var b' := b;
      var remaining := b.ev.remainingEscrow;
      if BranchFor(remaining, total.value).OwnerOnly? {
        if remaining > 0 {
          var released := PayOut(env, b.ev.token, b.ev.owner, remaining);
          if released.Fail? {
            return Err(released.error);
          }
        }
        b' := WriteOwnerCancel(b, total.value);
      } else {
        b' := WriteTerms(b, total.value);
      }
      Save(id, b', ManagerOf(b), op);
      return Ok(());
    }

    /** Handles the next slot of an open cancellation. */
    method RefundNext(env: Env, b: Book) returns (b': Book)
      requires MoreSlots(b)
      modifies `bal
      ensures var refund := NextRefund(b);
              if refund.None? then b' == CrankSlot(b, true) && bal == old(bal)
              else
                var sent := Release(old(bal), env, b.ev.token, refund.value.0, refund.value.1);
                b' == CrankSlot(b, sent.Ok?) && bal == sent.GetOr(old(bal))
    {
      var st := b.cancel.value;
      var idx := st.nextIdx;
      b' := b.(cancel := Some(st.(nextIdx := SatAdd32(idx, 1))));
      if idx >= |b.roll.list| {
        return;
      }
      var c := b.roll.list[idx];
      var amt := AmountOf(b.roll, c);
      if amt <= 0 {
        return;
      }
      var payout: I128 :=
        match st.branch
        case FullPartnerThenResidual => amt
        case ProRataPartners =>
          if st.nonOwnerTotal > 0 then TruncDiv(SatMul(amt, st.remainingAtStart), st.nonOwnerTotal) else 0
        case OwnerOnly => 0;
      b' := b'.(roll := b.roll.(amt := b.roll.amt[c := 0]));
      if payout > 0 {
        var sent := PayOut(env, b.ev.token, c, payout);
        if sent == Pass {
          b' := b'.(moves := b.moves + [Refund(c, payout)]);
        } else {
          b' := b'.(held := SetHeld(b.held, c, SatAdd(HeldOf(b.held, c), payout)));
        }
      }
    }

    method RefundBatch(env: Env, b: Book, cap: U32) returns (b': Book)
      modifies `bal
      ensures (b', bal) == W.CrankSlots(b, old(bal), env, cap)
    {
      b' := b;
      var processed := 0;
      while processed < cap && MoreSlots(b')
        invariant 0 <= processed <= cap
        invariant W.CrankSlots(b', bal, env, cap - processed) == W.CrankSlots(b, old(bal), env, cap)
      {
        b' := RefundNext(env, b');
        processed := processed + 1;
      }
    }

    method ProcessCancelBatch(env: Env, id: U64, maxRefunds: U32, op: OpId) returns (r: Result<U32>)
      modifies this
      ensures match W.ProcessCancelBatch(old(View()), env, id, maxRefunds, op)
              case Ok((w, left)) => r == Ok(left) && View() == w
              case Err(e) => r == Err(e) && View() == old(View())
    {
      if paused {
        return Err(Paused);
      }
      if maxRefunds == 0 {
        return Err(InvalidBatchSize);
      }
      if (SELF, op) in seen {
        return Err(OpAlreadySeen);
      }
      if id !in books {
        return Err(EventNotFound);
      }
      var b := books[id];
      if !b.ev.status.Cancelling? || b.cancel.None? {
        return Err(CancellationNotStarted);
      }
      var cap := if maxRefunds > MAX_REFUNDS_PER_BATCH then MAX_REFUNDS_PER_BATCH else maxRefunds;
      b := RefundBatch(env, b, cap);
      Save(id, b, SELF, op);
      if b.cancel.None? {
        return Ok(0);
      }
      return Ok(SatSub32(b.cancel.value.countAtStart, b.cancel.value.nextIdx));
    }

    method FinalizeCancel(env: Env, id: U64, op: OpId) returns (r: Result<()>)
      modifies this
      ensures Follows(old(View()), View(), r, W.FinalizeCancel(old(View()), env, id, op))
    {
      if paused {
        return Err(Paused);
      }
      if (SELF, op) in seen {
        return Err(OpAlreadySeen);
      }
      if id !in books {
        return Err(EventNotFound);
      }
      var b := books[id];
      if !b.ev.status.Cancelling? || b.cancel.None? {
        return Err(CancellationNotStarted);
      }
      var st := b.cancel.value;
      if st.nextIdx < st.countAtStart {
        return Err(CancellationNotFinished);
      }
      if st.branch.FullPartnerThenResidual? {
        var residual := SatSub(st.remainingAtStart, st.nonOwnerTotal);
        if residual > 0 {
          var released := PayOut(env, b.ev.token, b.ev.owner, residual);
          if released.Fail? {
            return Err(released.error);
          }
          b := b.(moves := b.moves + [Residual(residual)]);
        }
      }
      assert b.moves == books[id].moves + if OwnerResidual(st) > 0 then [Residual(OwnerResidual(st))] else [];
      b := b.(ev := b.ev.(remainingEscrow := 0, status := Cancelled), cancel := None, nonOwnerTotal := Some(0));
      books := books[id := b];
      seen := seen + {(SELF, op)};
      return Ok(());
    }

    method ClaimRefund(env: Env, id: U64, contributor: Address, op: OpId) returns (r: Result<()>)
      modifies this
      ensures Follows(old(View()), View(), r, W.ClaimRefund(old(View()), env, id, contributor, op))
    {
      if paused {
        return Err(Paused);
      }
      if id !in books {
        return Err(EventNotFound);
      }
      var b := books[id];
      var admitted := Admit(env, contributor, op);
      if admitted.Fail? {
        return Err(admitted.error);
      }
      var amount := HeldOf(b.held, contributor);
      if amount <= 0 {
        return Err(NoRefundOwed);
      }
      b := b.(held := SetHeld(b.held, contributor, 0));
      b := b.(moves := b.moves + [Refund(contributor, amount)]);
      r := SaveThenPay(env, id, b, contributor, amount, contributor, op);
    }

    // ---- select_winners ------------------------------------------------------------------

    method CheckSpecs(b: Book, specs: seq<WinnerSpec>) returns (o: Outcome)
      ensures o == W.CheckSpecs(b, specs)
    {
      if !b.ev.releaseKind.Single? && WinnerCount(b.rows) > 0 {
        return Fail(WinnersAlreadySelected);
      }
      if specs == [] {
        return Fail(NoSubmissions);
      }
      var cap := if b.ev.releaseKind.Single? then MAX_AWARDS_PER_SELECT else MAX_GRANT_AWARDS;
      if |specs| > cap {
        return Fail(InvalidWinnerPosition);
      }
      var small := BumpsAreSmall(specs);
      if !small {
        return Fail(ReputationBumpTooLarge);
      }
      var distinct := PositionsAreDistinct(specs);
      if !distinct {
        return Fail(DuplicateWinnerPosition);
      }
      return Pass;
    }

    method SelectWinners(env: Env, id: U64, specs: seq<WinnerSpec>, op: OpId) returns (r: Result<()>)
      modifies this
      ensures Follows(old(View()), View(), r, W.SelectWinners(old(View()), env, id, specs, op))
    {
      if paused {
        return Err(Paused);
      }
      if id !in books {
        return Err(EventNotFound);
      }
      var b := books[id];
      if !b.ev.status.Active? {
        return Err(EventNotActive);
      }
      if b.ev.pillar.Crowdfunding? {
        return Err(InvalidPillar);
      }
      var manager := ManagerOf(b);
      var admitted := Admit(env, manager, op);
      if admitted.Fail? {
        return Err(admitted.error);
      }
      var ok := CheckSpecs(b, specs);
      if ok.Fail? {
        return Err(ok.error);
      }
      var selected: Result<Book>;
      if b.ev.releaseKind.Single? {
        selected := SelectSingle(b, specs, W.OpenTime(View(), env.now));
      } else {
        selected := SelectGrant(b, specs);
      }
      if selected.Err? {
        return Err(selected.error);
      }
      books := books[id := selected.value];
      seen := seen + {(manager, op)};
      return Ok(());
    }

    method SelectSingle(b: Book, specs: seq<WinnerSpec>, now: U64) returns (r: Result<Book>)
      ensures r == W.SelectSingle(b, specs, now)
    {
      var total := TotalPrizes(b, specs);
      if total.Err? {
        return Err(total.error);
      }
      if !(I128_MIN <= total.value + b.owed <= I128_MAX) {
        return Err(InsufficientEscrow);
      }
      var committed := total.value + b.owed;
      if committed > b.ev.remainingEscrow {
        return Err(InsufficientEscrow);
      }
      var placed := WritePrizes(b.(owed := committed), specs);
      if placed.Err? {
        return placed;
      }
      var prizes := placed.value.prizes.(unclaimed := Min(U32_MAX, placed.value.prizes.unclaimed + |specs|));
      var expiry := SatAdd64(now, PRIZE_CLAIM_WINDOW_SECS);
      if expiry > prizes.expiry.GetOr(0) {
        prizes := prizes.(expiry := Some(expiry));
      }
      return Ok(placed.value.(prizes := prizes));
    }

    method SelectGrant(b: Book, specs: seq<WinnerSpec>) returns (r: Result<Book>)
      ensures r == W.SelectGrant(b, specs)
    {
      var total := TotalGrants(b.ev, specs);
      if total.Err? {
        return Err(total.error);
      }
      if !(I128_MIN <= total.value.1 + b.owed <= I128_MAX) {
        return Err(InsufficientEscrow);
      }
      var committed := total.value.1 + b.owed;
      if committed > b.ev.remainingEscrow {
        return Err(InsufficientEscrow);
      }
      var rows := WriteAwards(b.rows, specs);
      return Ok(b.(owed := committed, roster := Some(total.value.0), rows := rows));
    }

    // ---- claim_prize ---------------------------------------------------------------------

    method ClaimPrize(env: Env, id: U64, position: U32, op: OpId) returns (r: Result<()>)
      modifies this
      ensures Follows(old(View()), View(), r, W.ClaimPrize(old(View()), env, id, position, op))
    {
      if paused {
        return Err(Paused);
      }
      if id !in books {
        return Err(EventNotFound);
      }
      var b := books[id];
      if !b.ev.status.Active? {
        return Err(EventNotActive);
      }
      if !b.ev.releaseKind.Single? {
        return Err(InvalidReleaseKind);
      }
      if position !in b.prizes.awards {
        return Err(InvalidWinnerPosition);
      }
      var award := b.prizes.awards[position];
      var admitted := Admit(env, award.recipient, op);
      if admitted.Fail? {
        return Err(admitted.error);
      }
      if award.anchorIdx >= |b.rows| {
        return Err(InvalidWinnerPosition);
      }
      var anchor := b.rows[award.anchorIdx];
      if anchor.recipient != award.recipient || anchor.position != position {
        return Err(InvalidWinnerPosition);
      }
      if anchor.paidAt.Some? {
        return Err(PrizeAlreadyClaimed);
      }
      var amount := anchor.amount;
      if amount <= 0 {
        return Err(InvalidDistribution);
      }
      if amount > b.ev.remainingEscrow {
        return Err(InsufficientEscrow);
      }
      var paid := WritePrizePaid(b, award.anchorIdx, env.now);
      if paid.Err? {
        return Err(paid.error);
      }
      r := SaveThenPay(env, id, paid.value, award.recipient, amount, award.recipient, op);
    }

    // ---- claim_milestone and forfeit_milestone -------------------------------------------

    method ClaimMilestone(env: Env, id: U64, recipient: Address, milestone: U32, reputationBump: U32, op: OpId)
      returns (r: Result<()>)
      modifies this
      ensures Follows(old(View()), View(), r, W.ClaimMilestone(old(View()), env, id, recipient, milestone,
            reputationBump, op))
    {
      if paused {
        return Err(Paused);
      }
      if reputationBump > MAX_REPUTATION_BUMP {
        return Err(ReputationBumpTooLarge);
      }
      if id !in books {
        return Err(EventNotFound);
      }
      var b := books[id];
      if !b.ev.status.Active? {
        return Err(EventNotActive);
      }
      var n := W.CheckMilestone(b, milestone);
      if n.Err? {
        return Err(n.error);
      }
      var admitted := Admit(env, b.ev.owner, op);
      if admitted.Fail? {
        return Err(admitted.error);
      }
      if b.ev.pillar.Crowdfunding? {
        r := ReleaseCampaign(env, id, b, n.value, recipient, milestone, op);
      } else {
        r := ReleaseGrant(env, id, b, n.value, recipient, milestone, op);
      }
    }

    method ReleaseCampaign(env: Env, id: U64, b: Book, n: U32, recipient: Address, milestone: U32, op: OpId)
      returns (r: Result<()>)
      modifies this
      ensures Follows(old(View()), View(), r, W.CampaignRelease(old(View()), env, id, b, n, recipient, milestone, op))
    {
      var cosigner := validator.GetOr(admin);
      if cosigner !in env.auths || cosigner == SELF {
        return Err(Unauthorized);
      }
      if milestone in FlagsOf(b.flags, recipient) {
        return Err(MilestoneAlreadyClaimed);
      }
      if recipient != b.ev.owner {
        return Err(NoSubmissions);
      }
      var open := SatSub32(n, b.campaignClaimed);
      if open == 0 {
        return Err(InvalidMilestone);
      }
      if b.ev.remainingEscrow <= 0 {
        return Err(InsufficientEscrow);
      }
      var amount: I128 := if open == 1 then b.ev.remainingEscrow else TruncDiv(b.ev.remainingEscrow, open);
      if amount <= 0 {
        return Err(InvalidDistribution);
      }
      if amount > b.ev.remainingEscrow {
        return Err(InsufficientEscrow);
      }
      var bps := b.ev.feeBpsOverride.GetOr(feeBps);
      var b' := WriteCampaignPaid(b, milestone, amount, ComputeFee(amount, bps), env.now);
      r := SaveThenPayWithFee(env, id, b', recipient, amount, bps, b.ev.owner, op);
    }

    method SaveThenPayWithFee(env: Env, id: U64, b: Book, to: Address, amount: I128, bps: U32, domain: Address,
                              op: OpId)
      returns (r: Result<()>)
      modifies this
      ensures Follows(old(View()), View(), r, PaidWorld(old(View()), id, b, domain, op,
                ReleaseWithFee(old(bal), env, b.ev.token, to, old(feeAccount), amount, bps)))
    {
      var savedBooks, savedSeen := books, seen;
      Save(id, b, domain, op);
      var released := PayOutWithFee(env, b.ev.token, to, amount, bps);
      if released.Fail? {
        books, seen := savedBooks, savedSeen;
        return Err(released.error);
      }
      return Ok(());
    }

    method ReleaseGrant(env: Env, id: U64, b: Book, n: U32, recipient: Address, milestone: U32, op: OpId)
      returns (r: Result<()>)
      modifies this
      ensures Follows(old(View()), View(), r, W.GrantRelease(old(View()), env, id, b, n, recipient, milestone, op))
    {
      if milestone in FlagsOf(b.flags, recipient) {
        return Err(MilestoneAlreadyClaimed);
      }
      var standing := StandingOf(b, recipient);
      if standing.Err? {
        return Err(standing.error);
      }
      var share := Share(standing.value, b.ev.releaseKind, n, milestone);
      if share.Err? {
        return Err(share.error);
      }
      var amount := share.value;
      if amount <= 0 {
        return Err(InvalidDistribution);
      }
      if amount > b.ev.remainingEscrow {
        return Err(InsufficientEscrow);
      }
      var paid := WriteGrantPaid(b, recipient, standing.value.position, milestone, amount, env.now);
      if paid.Err? {
        return Err(paid.error);
      }
      r := SaveThenPay(env, id, paid.value, recipient, amount, b.ev.owner, op);
    }

    method ForfeitMilestone(env: Env, id: U64, recipient: Address, milestone: U32, op: OpId) returns (r: Result<()>)
      modifies this
      ensures Follows(old(View()), View(), r, W.ForfeitMilestone(old(View()), env, id, recipient, milestone, op))
    {
      if paused {
        return Err(Paused);
      }
      if id !in books {
        return Err(EventNotFound);
      }
      var b := books[id];
      if !b.ev.status.Active? {
        return Err(EventNotActive);
      }
      if !b.ev.pillar.Grant? {
        return Err(InvalidPillar);
      }
      var n := W.CheckMilestone(b, milestone);
      if n.Err? {
        return Err(n.error);
      }
      var admitted := Admit(env, b.ev.owner, op);
      if admitted.Fail? {
        return Err(admitted.error);
      }
      if milestone in FlagsOf(b.flags, recipient) {
        return Err(MilestoneAlreadyClaimed);
      }
      var standing := StandingOf(b, recipient);
      if standing.Err? {
        return Err(standing.error);
      }
      var share := Share(standing.value, b.ev.releaseKind, n.value, milestone);
      if share.Err? {
        return Err(share.error);
      }
      if share.value <= 0 {
        return Err(InvalidDistribution);
      }
      var settled := WriteSettlement(b, recipient, milestone, share.value);
      if settled.Err? {
        return Err(settled.error);
      }
      Save(id, settled.value, b.ev.owner, op);
      return Ok(());
    }

    // ---- administration ------------------------------------------------------------------

    method RequireAdmin(env: Env) returns (o: Outcome)
      ensures o == W.RequireAuth(env, admin)
    {
      return if admin in env.auths && admin != SELF then Pass else Fail(Unauthorized);
    }

    method Pause(env: Env) returns (r: Result<()>)
      modifies `paused, `pausedAt
      ensures Follows(old(View()), View(), r, W.Pause(old(View()), env))
    {
      var ok := RequireAdmin(env);
      if ok.Fail? {
        return Err(ok.error);
      }
      if pausedAt.None? {
        pausedAt := Some(env.now);
      }
      paused := true;
      return Ok(());
    }

    method Unpause(env: Env) returns (r: Result<()>)
      modifies `paused, `pausedAt, `pausedSeconds
      ensures Follows(old(View()), View(), r, W.Unpause(old(View()), env))
    {
      var ok := RequireAdmin(env);
      if ok.Fail? {
        return Err(ok.error);
      }
      if pausedAt.Some? {
        var pausedFor := SatSub64(env.now, pausedAt.value);
        pausedSeconds := SatAdd64(pausedSeconds, pausedFor);
        pausedAt := None;
      }
      paused := false;
      return Ok(());
    }

    method SetFeeBps(env: Env, bps: U32) returns (r: Result<()>)
      modifies `feeBps
      ensures Follows(old(View()), View(), r, W.SetFeeBps(old(View()), env, bps))
    {
      var ok := RequireAdmin(env);
      if ok.Fail? {
        return Err(ok.error);
      }
      if bps > MAX_FEE_BPS {
        return Err(InvalidFeeBps);
      }
      feeBps := bps;
      return Ok(());
    }

    method SetFeeAccount(env: Env, account: Address) returns (r: Result<()>)
      modifies `feeAccount
      ensures Follows(old(View()), View(), r, W.SetFeeAccount(old(View()), env, account))
    {
      var ok := RequireAdmin(env);
      if ok.Fail? {
        return Err(ok.error);
      }
      feeAccount := account;
      return Ok(());
    }

    method RegisterToken(env: Env, token: Address) returns (r: Result<()>)
      modifies `supported
      ensures Follows(old(View()), View(), r, W.RegisterToken(old(View()), env, token))
    {
      var ok := RequireAdmin(env);
      if ok.Fail? {
        return Err(ok.error);
      }
      supported := supported + {token};
      return Ok(());
    }

    method DeregisterToken(env: Env, token: Address) returns (r: Result<()>)
      modifies `supported
      ensures Follows(old(View()), View(), r, W.DeregisterToken(old(View()), env, token))
    {
      var ok := RequireAdmin(env);
      if ok.Fail? {
        return Err(ok.error);
      }
      supported := supported - {token};
      return Ok(());
    }
  }
}
