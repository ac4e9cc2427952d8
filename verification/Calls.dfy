/** Calls on the contract, and how each acts on one event's book. */
module Calls {
  import opened Numeric
  import opened Sums
  import opened Types
  import opened Escrow
  import opened Books
  import opened Audit
  import opened Invariants
  import opened Steps
  import W = World

  datatype Call =
    | CreateEvent(params: CreateEventParams, op: OpId)
    | AddFunds(id: U64, from: Address, amount: I128, op: OpId)
    | StartCancel(id: U64, op: OpId)
    | ProcessCancelBatch(id: U64, maxRefunds: U32, op: OpId)
    | FinalizeCancel(id: U64, op: OpId)
    | ClaimRefund(id: U64, contributor: Address, op: OpId)
    | SelectWinners(id: U64, specs: seq<WinnerSpec>, op: OpId)
    | ClaimPrize(id: U64, position: U32, op: OpId)
    | ClaimMilestone(id: U64, recipient: Address, milestone: U32, reputationBump: U32, op: OpId)
    | ForfeitMilestone(id: U64, recipient: Address, milestone: U32, op: OpId)
    | Pause
    | Unpause
    | SetFeeBps(bps: U32)
    | SetFeeAccount(account: Address)
    | RegisterToken(token: Address)
    | DeregisterToken(token: Address)
    /** The outcome of the two-step rotations of the admin and the release validator. */
    | Rotate(newAdmin: Address, newValidator: Option<Address>)
    /** The outcome of an event's manager delegation, or of the owner taking it back. */
    | Delegate(id: U64, manager: Option<Address>)
    /** Transfers among other accounts, and donations to the contract. */
    | External(balances: Balances)

  function ExecAwards(w: W.World, env: Env, c: Call): Result<W.World>
    requires c.AddFunds? || c.SelectWinners? || c.ClaimPrize?
  {
    match c
    case AddFunds(id, from, amount, op) => W.AddFunds(w, env, id, from, amount, op)
    case SelectWinners(id, specs, op) => W.SelectWinners(w, env, id, specs, op)
    case ClaimPrize(id, position, op) => W.ClaimPrize(w, env, id, position, op)
  }

  function ExecCancellation(w: W.World, env: Env, c: Call): Result<W.World>
    requires c.StartCancel? || c.ProcessCancelBatch? || c.FinalizeCancel? || c.ClaimRefund?
  {
    match c
    case StartCancel(id, op) => W.StartCancel(w, env, id, op)
    case ProcessCancelBatch(id, maxRefunds, op) => var r :- W.ProcessCancelBatch(w, env, id, maxRefunds, op); Ok(r.0)
    case FinalizeCancel(id, op) => W.FinalizeCancel(w, env, id, op)
    case ClaimRefund(id, contributor, op) => W.ClaimRefund(w, env, id, contributor, op)
  }

  function ExecMilestones(w: W.World, env: Env, c: Call): Result<W.World>
    requires c.ClaimMilestone? || c.ForfeitMilestone? || c.Delegate?
  {
    match c
    case ClaimMilestone(id, recipient, milestone, bump, op) =>
      W.ClaimMilestone(w, env, id, recipient, milestone, bump, op)
    case ForfeitMilestone(id, recipient, milestone, op) => W.ForfeitMilestone(w, env, id, recipient, milestone, op)
    case Delegate(id, manager) =>
      var b :- W.GetBook(w, id);
      Ok(w.(books := w.books[id := b.(manager := manager)]))
  }

  function Administer(w: W.World, env: Env, c: Call): Result<W.World>
    requires EventOf(c).None? && !c.CreateEvent?
  {
    match c
    case Pause => W.Pause(w, env)
    case Unpause => W.Unpause(w, env)
    case SetFeeBps(bps) => W.SetFeeBps(w, env, bps)
    case SetFeeAccount(account) => W.SetFeeAccount(w, env, account)
    case RegisterToken(token) => W.RegisterToken(w, env, token)
    case DeregisterToken(token) => W.DeregisterToken(w, env, token)
    case Rotate(admin, validator) => Ok(w.(admin := admin, validator := validator))
    case External(balances) => Ok(w.(bal := balances))
  }

  function Exec(w: W.World, env: Env, c: Call): Result<W.World> {
    if c.CreateEvent? then
      var r :- W.CreateEvent(w, env, c.params, c.op);
      Ok(r.0)
    else if EventOf(c).None? then Administer(w, env, c)
    else if c.AddFunds? || c.SelectWinners? || c.ClaimPrize? then ExecAwards(w, env, c)
    else if c.ClaimMilestone? || c.ForfeitMilestone? || c.Delegate? then ExecMilestones(w, env, c)
    else ExecCancellation(w, env, c)
  }

  /** An error reverts the call. */
  function Step(w: W.World, env: Env, c: Call): W.World {
    var r := Exec(w, env, c);
    if r.Ok? then r.value else w
  }

  // ---- the invariant of the whole contract ---------------------------------------------

  /** What the transfers made for each event leave in the contract, of one token. */
  ghost function Nets(books: map<U64, Book>, token: Address): map<U64, int> {
    map id | id in books :: if books[id].ev.token == token then NetOf(books[id]) else 0
  }

  /** The contract holds, of every token, at least what its events' transfers left in it. */
  ghost predicate Backed(w: W.World) {
    forall t :: BackedIn(w.books, w.bal, t)
  }

  ghost predicate BackedIn(books: map<U64, Book>, bal: Balances, t: Address) {
    MapSum(Nets(books, t)) <= BalanceOf(bal, t, SELF)
  }

  ghost predicate BooksInv(w: W.World) {
    forall id :: id in w.books ==>
      && BookInv(w.books[id]) && w.books[id].ev.id == id
      && w.nextId.Some? && id < w.nextId.value
  }

  ghost predicate WorldInv(w: W.World) {
    && BooksInv(w) && Backed(w)
    && w.feeBps <= MAX_FEE_BPS
    && (w.paused <==> w.pausedAt.Some?)
  }

  // ---- what a call does to one book ----------------------------------------------------

  /** What the token answers to each transfer of a batch of the crank. */
  ghost function Answers(b: Book, bal: Balances, env: Env, cap: nat): seq<bool>
    decreases cap
  {
    if cap == 0 || !MoreSlots(b) then []
    else
      var refund := NextRefund(b);
      if refund.None? then [true] + Answers(CrankSlot(b, true), bal, env, cap - 1)
      else
        var r := Release(bal, env, b.ev.token, refund.value.0, refund.value.1);
        [r.Ok?] + Answers(CrankSlot(b, r.Ok?), if r.Ok? then r.value else bal, env, cap - 1)
  }

  /** The event a call names. */
  function EventOf(c: Call): Option<U64> {
    match c
    case AddFunds(id, _, _, _) => Some(id)
    case StartCancel(id, _) => Some(id)
    case ProcessCancelBatch(id, _, _) => Some(id)
    case FinalizeCancel(id, _) => Some(id)
    case ClaimRefund(id, _, _) => Some(id)
    case SelectWinners(id, _, _) => Some(id)
    case ClaimPrize(id, _, _) => Some(id)
    case ClaimMilestone(id, _, _, _, _) => Some(id)
    case ForfeitMilestone(id, _, _, _) => Some(id)
    case Delegate(id, _) => Some(id)
    case _ => None
  }

  ghost function BatchOp(b: Book, bal: Balances, env: Env, maxRefunds: U32): Op {
    Crank(Answers(b, bal, env, Min(maxRefunds, MAX_REFUNDS_PER_BATCH)))
  }

  function SelectOp(b: Book, specs: seq<WinnerSpec>, now: U64): Op {
    if b.ev.releaseKind.Single? then SelectPrizes(specs, now) else SelectGrants(specs)
  }

  function MilestoneOp(b: Book, recipient: Address, milestone: U32, bps: U32, now: U64): Op {
    if b.ev.pillar.Crowdfunding? && b.ev.releaseKind.Multi? then
      ClaimCampaign(milestone, ComputeFee(CampaignAmount(b, b.ev.releaseKind.n).GetOr(0), bps), now)
    else ClaimGrant(recipient, milestone, now)
  }

  /** The step a call takes on the book of the event it names. */
  ghost function OpOf(w: W.World, env: Env, c: Call, b: Book): Op
    requires EventOf(c).Some?
  {
    match c
    case AddFunds(_, from, amount, _) => Fund(from, amount, W.ContributionFee(w, b.ev, amount))
    case StartCancel(_, _) => Op.StartCancel
    case ProcessCancelBatch(_, maxRefunds, _) => BatchOp(b, w.bal, env, maxRefunds)
    case FinalizeCancel(_, _) => Op.FinalizeCancel
    case ClaimRefund(_, contributor, _) => CollectRefund(contributor)
    case SelectWinners(_, specs, _) => SelectOp(b, specs, W.OpenTime(w, env.now))
    case ClaimPrize(_, position, _) => Op.ClaimPrize(position, env.now)
    case ClaimMilestone(_, recipient, milestone, _, _) =>
      MilestoneOp(b, recipient, milestone, W.EffectiveFeeBps(w, b.ev.feeBpsOverride), env.now)
    case ForfeitMilestone(_, recipient, milestone, _) => ForfeitGrant(recipient, milestone)
    case Delegate(_, manager) => Op.Delegate(manager)
  }
}
