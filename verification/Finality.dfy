/** What is settled stays settled: nothing is paid twice, in any run. */
module Finality {
  import opened Numeric
  import opened Types
  import opened Escrow
  import opened Books
  import opened Invariants
  import opened Steps
  import opened Preservation
  import opened Calls
  import opened Safety
  import opened Runs
  import opened Histories
  import opened Guarantees
  import opened Claims
  import opened Effects
  import W = World

  // ---- what no step takes back -----------------------------------------------------------

  /** Paid rows stand as they are, and every award stays at its row. */
  ghost predicate PrizesStand(b: Book, b': Book) {
    && |b.rows| <= |b'.rows|
    && (forall i :: 0 <= i < |b.rows| && b.rows[i].paidAt.Some? ==> b'.rows[i] == b.rows[i])
    && (forall p :: p in b.prizes.awards ==> p in b'.prizes.awards && b'.prizes.awards[p] == b.prizes.awards[p])
  }

  /** No milestone flag is ever cleared. */
  ghost predicate FlagsStand(b: Book, b': Book) {
    forall a, m :: m in FlagsOf(b.flags, a) ==> m in FlagsOf(b'.flags, a)
  }

  lemma BatchStands(b: Book, specs: seq<WinnerSpec>, now: U64)
    requires PrizeInv(b) && b.owed >= 0 && SelectPrizesOk(b, specs, now) && SelectPrizesFits(b, specs)
    ensures PrizesStand(b, SelectPrizesStep(b, specs, now))
  {
    ValidatedPrizes(b, specs, 0);
    BatchPlaced(b, specs, now);
  }

  lemma PrizeStepStands(b: Book, op: Op)
    requires PrizeInv(b) && b.owed >= 0 && b.ev.releaseKind.Single? && !b.ev.pillar.Grant? && !b.ev.pillar.Crowdfunding?
    requires Enabled(b, op) && Fits(b, op)
    ensures PrizesStand(b, Apply(b, op))
  {
    match op
    case SelectPrizes(specs, now) => BatchStands(b, specs, now);
    case ClaimPrize(position, now) => PrizeStepPays(b, position, now);
    case _ => OtherStepStands(b, op);
  }

  lemma OtherStepStands(b: Book, op: Op)
    requires !b.ev.pillar.Grant? && !b.ev.pillar.Crowdfunding? && Enabled(b, op)
    requires !op.SelectPrizes? && !op.ClaimPrize?
    ensures PrizesStand(b, Apply(b, op))
  {
    if op.Crank? {
      CrankFrame(b, op.accepted);
    }
  }

  lemma FlagStepStands(b: Book, op: Op)
    requires Enabled(b, op)
    ensures FlagsStand(b, Apply(b, op))
  {
    match op
    case SelectPrizes(specs, now) => SelectPrizesFrame(b, specs, now);
    case Crank(accepted) => CrankFrame(b, accepted);
    case _ =>
  }

  // ---- histories -------------------------------------------------------------------------

  lemma PrizesStandOn(b: Book, mid: Book, b': Book)
    requires PrizesStand(b, mid) && PrizesStand(mid, b')
    ensures PrizesStand(b, b')
  {
  }

  lemma PrizeBookStands(b: Book, op: Op)
    requires BookInv(b) && b.ev.releaseKind.Single? && Enabled(b, op) && Fits(b, op)
    ensures PrizesStand(b, Apply(b, op))
  {
    PrizesHaveRows(b);
    OwedIsCovered(b);
    PrizeStepStands(b, op);
  }

  lemma OwedIsCovered(b: Book)
    requires BookInv(b) && b.ev.releaseKind.Single?
    ensures b.owed >= 0 && !b.ev.pillar.Grant? && !b.ev.pillar.Crowdfunding?
  {
    assert MoneyInv(b) && TermsInv(b.ev);
  }

  lemma {:induction false} PrizesStandFor(b: Book, ops: seq<Op>)
    requires BookInv(b) && b.ev.releaseKind.Single? && Allowed(b, ops)
    ensures PrizesStand(b, ApplyAll(b, ops))
    decreases |ops|
  {
    if ops != [] {
      var init, last := ops[..|ops| - 1], ops[|ops| - 1];
      PrizesStandFor(b, init);
      HistoryKeeps(b, init);
      Lifecycle(b, init);
      PrizeBookStands(ApplyAll(b, init), last);
      PrizesStandOn(b, ApplyAll(b, init), ApplyAll(b, ops));
    }
  }

  lemma {:induction false} FlagsStandFor(b: Book, ops: seq<Op>)
    requires Allowed(b, ops)
    ensures FlagsStand(b, ApplyAll(b, ops))
    decreases |ops|
  {
    if ops != [] {
      var init, last := ops[..|ops| - 1], ops[|ops| - 1];
      FlagsStandFor(b, init);
      FlagStepStands(ApplyAll(b, init), last);
    }
  }

  // ---- runs ------------------------------------------------------------------------------

  /** The prize of this position is paid: its award names a paid row. */
  ghost predicate PaidAt(b: Book, position: U32) {
    && position in b.prizes.awards && b.prizes.awards[position].anchorIdx < |b.rows|
    && b.rows[b.prizes.awards[position].anchorIdx].paidAt.Some?
  }

  lemma PaidIsRefused(w: W.World, env: Env, id: U64, position: U32, op: OpId)
    requires id in w.books && PaidAt(w.books[id], position)
    ensures W.ClaimPrize(w, env, id, position, op).Err?
    ensures var b := w.books[id]; var award := b.prizes.awards[position]; var row := b.rows[award.anchorIdx];
            && !w.paused && b.ev.status.Active? && b.ev.releaseKind.Single?
            && row.recipient == award.recipient && row.position == position
            && award.recipient in env.auths && award.recipient != SELF && (award.recipient, op) !in w.seen ==>
              W.ClaimPrize(w, env, id, position, op) == Err(PrizeAlreadyClaimed)
  {
  }

  lemma PrizeClaimRuns(w: W.World, env: Env, id: U64, position: U32, op: OpId, w1: W.World)
    requires RunInv(w, env.now) && W.ClaimPrize(w, env, id, position, op) == Ok(w1)
    ensures RunInv(w1, env.now) && id in w.books && id in w1.books
    ensures w1.books[id].ev.releaseKind.Single? && PaidAt(w1.books[id], position)
  {
    ClaimPrizeEffect(w, env, id, position, op, w1);
    ClaimPrizeActs(w, env, id, position, op);
    ActionKeeps(w, w1, id, Op.ClaimPrize(position, env.now));
    OpenTimeSame(w, w1, env.now);
    SingleRelease(w, env, id, position, op);
  }

  lemma SingleRelease(w: W.World, env: Env, id: U64, position: U32, op: OpId)
    requires W.ClaimPrize(w, env, id, position, op).Ok?
    ensures id in w.books && w.books[id].ev.releaseKind.Single?
  {
  }

  /** A prize is paid once: from the claim that pays it on, in every run, its row stands as
      it was written and every further claim of it is refused. */
  lemma PrizeIsPaidOnce(w: W.World, env: Env, id: U64, position: U32, op: OpId, w1: W.World, run: Run, w2: W.World,
                        env': Env, op': OpId)
    requires RunInv(w, env.now) && W.ClaimPrize(w, env, id, position, op) == Ok(w1)
    requires Lawful(w1, env.now, run) && w2 == After(w1, run)
    ensures id in w1.books && id in w2.books && PaidAt(w1.books[id], position) && PaidAt(w2.books[id], position)
    ensures var anchor := w1.books[id].prizes.awards[position].anchorIdx;
            && w2.books[id].prizes.awards[position] == w1.books[id].prizes.awards[position]
            && w2.books[id].rows[anchor] == w1.books[id].rows[anchor]
    ensures W.ClaimPrize(w2, env', id, position, op').Err?
  {
    PrizeClaimRuns(w, env, id, position, op, w1);
    RunIsHistory(w1, env.now, run, id);
    PrizesStandFor(w1.books[id], OpsOf(w1, run, id));
    PaidIsRefused(w2, env', id, position, op');
  }

  lemma FlaggedIsRefused(w: W.World, env: Env, id: U64, r: Address, m: U32, bump: U32, op: OpId)
    requires id in w.books && m in FlagsOf(w.books[id].flags, r)
    ensures W.ClaimMilestone(w, env, id, r, m, bump, op).Err? && W.ForfeitMilestone(w, env, id, r, m, op).Err?
  {
  }

  /** A milestone settles once: from the claim or forfeit that settles it on, in every run,
      no claim and no forfeit of it for the same recipient goes through. */
  lemma MilestoneSettlesOnce(w: W.World, env: Env, c: Call, run: Run, w2: W.World, env': Env, bump: U32, op': OpId)
    requires RunInv(w, env.now) && (c.ClaimMilestone? || c.ForfeitMilestone?) && Exec(w, env, c).Ok?
    requires Lawful(Step(w, env, c), env.now, run) && w2 == After(Step(w, env, c), run)
    ensures c.id in w2.books && c.milestone in FlagsOf(w2.books[c.id].flags, c.recipient)
    ensures W.ClaimMilestone(w2, env', c.id, c.recipient, c.milestone, bump, op').Err?
    ensures W.ForfeitMilestone(w2, env', c.id, c.recipient, c.milestone, op').Err?
  {
    var w1 := Step(w, env, c);
    SettlementFlags(w, env, c);
    StepKeeps(w, env.now, env, c);
    RunIsHistory(w1, env.now, run, c.id);
    FlagsStandFor(w1.books[c.id], OpsOf(w1, run, c.id));
    FlaggedIsRefused(w2, env', c.id, c.recipient, c.milestone, bump, op');
  }

  lemma SettlementFlags(w: W.World, env: Env, c: Call)
    requires WorldInv(w) && (c.ClaimMilestone? || c.ForfeitMilestone?) && Exec(w, env, c).Ok?
    ensures c.id in Step(w, env, c).books
    ensures c.milestone in FlagsOf(Step(w, env, c).books[c.id].flags, c.recipient)
  {
    var w1 := Step(w, env, c);
    if c.ForfeitMilestone? {
      ForfeitMilestoneEffect(w, env, c.id, c.recipient, c.milestone, c.op, w1);
    } else {
      ClaimFlags(w, env, c.id, c.recipient, c.milestone, c.reputationBump, c.op, w1);
    }
  }

  lemma ClaimFlags(w: W.World, env: Env, id: U64, r: Address, m: U32, bump: U32, op: OpId, w1: W.World)
    requires W.ClaimMilestone(w, env, id, r, m, bump, op) == Ok(w1)
    ensures id in w1.books && m in FlagsOf(w1.books[id].flags, r)
  {
  }
}
