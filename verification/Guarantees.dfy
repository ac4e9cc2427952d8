/** What every run of the contract guarantees. */
module Guarantees {
  import opened Numeric
  import opened Sums
  import opened Types
  import opened Escrow
  import opened Books
  import opened Invariants
  import opened Steps
  import opened Preservation
  import opened Backing
  import opened Safety
  import opened Runs
  import opened Histories
  import opened Claims
  import W = World

  // ---- solvency --------------------------------------------------------------------------

  /** In every reachable state the contract holds, of every token, at least what its events
      may still have to pay out in it. */
  lemma AlwaysSolvent(w: W.World, now: U64, t: Address)
    requires Reachable(w, now)
    ensures MapSum(Liabilities(w.books, t)) <= BalanceOf(w.bal, t, SELF)
    ensures forall id :: id in w.books ==> Liability(w.books[id]) >= 0
  {
    ReachableInv(w, now);
    Solvent(w, t);
    forall id | id in w.books
      ensures Liability(w.books[id]) >= 0
    {
      LiabilityWithinBalance(w, id);
    }
  }

  // ---- a run, seen from one event --------------------------------------------------------

  /** The steps a run takes on one event. */
  ghost function OpsOf(w: W.World, run: Run, id: U64): seq<Op> {
    if run == [] then []
    else
      var op := OpFor(After(w, run[..|run| - 1]), run[|run| - 1].0, run[|run| - 1].1, id);
      Extended(OpsOf(w, run[..|run| - 1], id), op)
  }

  function Extended(ops: seq<Op>, op: Option<Op>): seq<Op> { ops + if op.Some? then [op.value] else [] }

  lemma HistoryExtends(b: Book, ops: seq<Op>, op: Option<Op>, after: Book)
    requires Allowed(b, ops) && BookSteps(ApplyAll(b, ops), after, op)
    ensures Allowed(b, Extended(ops, op)) && after == ApplyAll(b, Extended(ops, op))
  {
    if op.Some? {
      assert (ops + [op.value])[..|ops|] == ops;
    } else {
      assert Extended(ops, op) == ops;
    }
  }

  /** Every run is, for each event, a history of allowed steps: what is proved of those
      histories holds of the event in every run, whatever happens to the others. */
  lemma {:induction false} RunIsHistory(w: W.World, start: U64, run: Run, id: U64)
    requires RunInv(w, start) && Lawful(w, start, run) && id in w.books
    ensures id in After(w, run).books
    ensures Allowed(w.books[id], OpsOf(w, run, id))
    ensures After(w, run).books[id] == ApplyAll(w.books[id], OpsOf(w, run, id))
    decreases |run|
  {
    if run != [] {
      var init, last := run[..|run| - 1], run[|run| - 1];
      RunIsHistory(w, start, init, id);
      RunKeeps(w, start, init);
      BookStep(After(w, init), last.0, last.1, id);
      HistoryExtends(w.books[id], OpsOf(w, init, id), OpFor(After(w, init), last.0, last.1, id),
                     After(w, run).books[id]);
    }
  }

  // ---- the claim window ------------------------------------------------------------------

  /** The time a run spends with the contract open. */
  ghost function OpenSpan(w: W.World, start: U64, run: Run): int
    decreases |run|
  {
    if run == [] then 0
    else
      var init := run[..|run| - 1];
      OpenSpan(w, start, init)
      + if After(w, init).pausedAt.Some? then 0 else run[|run| - 1].0.now - EndTime(start, init)
  }

  /** Open time is exactly the time that passed unpaused, across any number of pauses. */
  lemma {:induction false} OpenTimeIsUnpausedTime(w: W.World, start: U64, run: Run)
    requires RunInv(w, start) && Lawful(w, start, run)
    ensures W.OpenTime(After(w, run), EndTime(start, run)) == W.OpenTime(w, start) + OpenSpan(w, start, run)
    ensures OpenSpan(w, start, run) >= 0
    decreases |run|
  {
    if run != [] {
      var init, last := run[..|run| - 1], run[|run| - 1];
      OpenTimeIsUnpausedTime(w, start, init);
      RunKeeps(w, start, init);
      OpenTimeRuns(After(w, init), EndTime(start, init), last.0.now);
      StepKeepsClock(After(w, init), last.0, last.1);
    }
  }

  function ExpiryOf(b: Book): U64 { b.prizes.expiry.GetOr(0) }

  lemma {:induction false} PlacingKeepsExpiry(b: Book, specs: seq<WinnerSpec>, anchor: int)
    requires anchor >= 0 && PlacePrizes(b, specs, anchor).Ok?
    ensures PlacePrizes(b, specs, anchor).value.prizes.expiry == b.prizes.expiry
    decreases |specs|
  {
    if specs != [] {
      var award := PrizeAward(specs[0].recipient, anchor, specs[0].reputationBump);
      PlacingKeepsExpiry(
        b.(rows := AppendWinner(b.rows, AwardRow(specs[0])),
           prizes := b.prizes.(awards := b.prizes.awards[specs[0].position := award])), specs[1..], anchor + 1);
    }
  }

  /** A selection leaves a window of at least 90 days of open time, and shortens none. */
  lemma SelectionSetsExpiry(b: Book, specs: seq<WinnerSpec>, now: U64)
    requires SelectPrizesOk(b, specs, now)
    ensures ExpiryOf(SelectPrizesStep(b, specs, now)) >= Max(ExpiryOf(b), SatAdd64(now, PRIZE_CLAIM_WINDOW_SECS))
  {
    var committed := SatAdd(ValidatePrizes(b, specs, 0).value, b.owed);
    PlacingKeepsExpiry(b.(owed := committed), specs, WinnerCount(b.rows));
  }

  lemma {:induction false} CrankKeepsPrizes(b: Book, accepted: seq<bool>)
    ensures CrankAll(b, accepted).prizes == b.prizes
    decreases |accepted|
  {
    if accepted != [] && MoreSlots(b) {
      CrankKeepsPrizes(CrankSlot(b, accepted[0]), accepted[1..]);
    }
  }

  lemma StepKeepsExpiry(b: Book, op: Op)
    requires Enabled(b, op)
    ensures ExpiryOf(Apply(b, op)) >= ExpiryOf(b)
  {
    match op
    case SelectPrizes(specs, now) => SelectionSetsExpiry(b, specs, now);
    case Crank(accepted) => CrankKeepsPrizes(b, accepted);
    case _ =>
  }

  lemma {:induction false} ExpiryOnlyGrows(b: Book, ops: seq<Op>)
    requires Allowed(b, ops)
    ensures ExpiryOf(ApplyAll(b, ops)) >= ExpiryOf(b)
    decreases |ops|
  {
    if ops != [] {
      ExpiryOnlyGrows(b, ops[..|ops| - 1]);
      StepKeepsExpiry(ApplyAll(b, ops[..|ops| - 1]), ops[|ops| - 1]);
    }
  }

  ghost predicate HasUnpaidPrize(b: Book) {
    exists i :: 0 <= i < |b.rows| && b.rows[i].paidAt.None?
  }

  lemma UnpaidPrizeIsCounted(b: Book)
    requires PrizeInv(b) && HasUnpaidPrize(b)
    ensures b.prizes.unclaimed > 0
  {
    var i :| 0 <= i < |b.rows| && b.rows[i].paidAt.None?;
    SumNonNegative(UnpaidMarks(b.rows));
    assert UnpaidMarks(b.rows)[i] == 1;
  }

  lemma CancelWaitsForWindow(w: W.World, env: Env, id: U64, op: OpId)
    requires W.StartCancel(w, env, id, op).Ok? && id in w.books
    requires w.books[id].ev.releaseKind.Single? && w.books[id].prizes.unclaimed > 0
    ensures W.OpenTime(w, env.now) > ExpiryOf(w.books[id])
  {
  }

  lemma WindowHistory(b: Book, specs: seq<WinnerSpec>, now: U64, ops: seq<Op>)
    requires BookInv(b) && SelectPrizesOk(b, specs, now) && SelectPrizesFits(b, specs)
    requires Allowed(SelectPrizesStep(b, specs, now), ops)
    ensures var b' := ApplyAll(SelectPrizesStep(b, specs, now), ops);
            && ExpiryOf(b') >= SatAdd64(now, PRIZE_CLAIM_WINDOW_SECS)
            && b'.ev.releaseKind.Single? && BookInv(b')
  {
    var b1 := SelectPrizesStep(b, specs, now);
    SelectionSetsExpiry(b, specs, now);
    SelectPrizesFrame(b, specs, now);
    SelectPrizesKeeps(b, specs, now);
    ExpiryOnlyGrows(b1, ops);
    Lifecycle(b1, ops);
    HistoryKeeps(b1, ops);
  }

  lemma UnpaidPrizeBlocks(b: Book)
    requires BookInv(b) && b.ev.releaseKind.Single? && HasUnpaidPrize(b)
    ensures b.prizes.unclaimed > 0
  {
    PrizesHaveRows(b);
    UnpaidPrizeIsCounted(b);
  }

  /** What a selection leaves: a state of some run, one step on from the last. */
  lemma SelectionRuns(w: W.World, env: Env, id: U64, specs: seq<WinnerSpec>, op: OpId)
    requires RunInv(w, env.now) && id in w.books && SelectPrizesFits(w.books[id], specs)
    requires w.books[id].ev.releaseKind.Single? && W.SelectWinners(w, env, id, specs, op).Ok?
    ensures var w1 := W.SelectWinners(w, env, id, specs, op).value; var now := W.OpenTime(w, env.now);
            && RunInv(w1, env.now) && id in w1.books
            && SelectPrizesOk(w.books[id], specs, now)
            && w1.books[id] == SelectPrizesStep(w.books[id], specs, now)
  {
    var w1, now := W.SelectWinners(w, env, id, specs, op).value, W.OpenTime(w, env.now);
    SelectSingleSteps(w, env, id, specs, op);
    SelectFunded(w.bal, w.books[id], specs, now);
    ActionKeeps(w, w1, id, SelectPrizes(specs, now));
    OpenTimeSame(w, w1, env.now);
  }

  lemma CancelAfterWindow(w: W.World, env: Env, id: U64, op: OpId, selected: U64)
    requires id in w.books && BookInv(w.books[id]) && w.books[id].ev.releaseKind.Single?
    requires HasUnpaidPrize(w.books[id]) && ExpiryOf(w.books[id]) >= SatAdd64(selected, PRIZE_CLAIM_WINDOW_SECS)
    requires W.StartCancel(w, env, id, op).Ok?
    ensures W.OpenTime(w, env.now) > selected + PRIZE_CLAIM_WINDOW_SECS
  {
    UnpaidPrizeBlocks(w.books[id]);
    CancelWaitsForWindow(w, env, id, op);
  }

  /** The claim window over runs: if an event is cancelled while one of its prizes is still
      unpaid, more than 90 days of open time have passed since each selection of its
      winners, whatever happened in between. */
  lemma CancelLeavesClaimWindow(w: W.World, env: Env, id: U64, specs: seq<WinnerSpec>, op: OpId, w1: W.World,
                                run: Run, w2: W.World, env': Env, op': OpId)
    requires RunInv(w, env.now) && id in w.books && SelectPrizesFits(w.books[id], specs)
    requires w.books[id].ev.releaseKind.Single? && W.SelectWinners(w, env, id, specs, op) == Ok(w1)
    requires Lawful(w1, env.now, run) && w2 == After(w1, run)
    requires id in w2.books && HasUnpaidPrize(w2.books[id]) && W.StartCancel(w2, env', id, op').Ok?
    ensures W.OpenTime(w2, env'.now) > W.OpenTime(w, env.now) + 7_776_000
  {
    SelectionRuns(w, env, id, specs, op);
    RunIsHistory(w1, env.now, run, id);
    WindowHistory(w.books[id], specs, W.OpenTime(w, env.now), OpsOf(w1, run, id));
    CancelAfterWindow(w2, env', id, op', W.OpenTime(w, env.now));
  }
}
