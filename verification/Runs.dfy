/** Runs of the contract from a fresh deployment. */
module Runs {
  import opened Numeric
  import opened Types
  import opened Escrow
  import opened Books
  import opened Steps
  import opened Calls
  import opened Safety
  import W = World

  type Run = seq<(Env, Call)>

  /** The state a run leaves behind; a call that fails leaves no trace. */
  function After(w: W.World, run: Run): W.World {
    if run == [] then w
    else Step(After(w, run[..|run| - 1]), run[|run| - 1].0, run[|run| - 1].1)
  }

  /** Ledger time never runs backwards, and every call meets the model's premises. */
  ghost predicate Lawful(w: W.World, start: U64, run: Run) {
    run == [] ||
      (&& Lawful(w, start, run[..|run| - 1])
       && Premise(After(w, run[..|run| - 1]), run[|run| - 1].1)
       && EndTime(start, run[..|run| - 1]) <= run[|run| - 1].0.now)
  }

  function EndTime(start: U64, run: Run): U64 { if run == [] then start else run[|run| - 1].0.now }

  /** The pause fields describe a pause that began before now, after all earlier ones. */
  ghost predicate ClockInv(w: W.World, now: U64) {
    if w.pausedAt.Some? then w.pausedSeconds <= w.pausedAt.value <= now else w.pausedSeconds <= now
  }

  ghost predicate RunInv(w: W.World, now: U64) { WorldInv(w) && ClockInv(w, now) }

  /** The state w at time now is one that some run from some deployment leads to. */
  ghost predicate Reachable(w: W.World, now: U64) {
    exists w0, start, run :: Leads(w0, start, run, w, now)
  }

  ghost predicate Leads(w0: W.World, start: U64, run: Run, w: W.World, now: U64) {
    && (exists bal, admin, account, bps, ds :: W.Deployed(bal, admin, account, bps, ds) == Ok(w0))
    && Lawful(w0, start, run) && w == After(w0, run) && EndTime(start, run) <= now
  }

  // ---- the pause clock -------------------------------------------------------------------

  /** Only pause and unpause touch the clock. */
  ghost predicate SameClock(w: W.World, w': W.World) {
    w'.paused == w.paused && w'.pausedAt == w.pausedAt && w'.pausedSeconds == w.pausedSeconds
  }

  lemma ActsKeepClock(w: W.World, w': W.World, id: U64, op: Op)
    requires Acts(w, w', id, op)
    ensures SameClock(w, w')
  {
  }

  lemma AdministerClock(w: W.World, env: Env, c: Call)
    requires EventOf(c).None? && !c.CreateEvent? && Administer(w, env, c).Ok?
    requires ClockInv(w, env.now)
    ensures ClockInv(Administer(w, env, c).value, env.now)
    ensures W.OpenTime(Administer(w, env, c).value, env.now) == W.OpenTime(w, env.now)
  {
  }

  lemma OpenTimeSame(w: W.World, w': W.World, now: U64)
    requires SameClock(w, w')
    ensures W.OpenTime(w', now) == W.OpenTime(w, now)
    ensures ClockInv(w, now) <==> ClockInv(w', now)
  {
  }

  /** No call moves the clock: it is continuous across every pause and unpause. */
  lemma StepKeepsClock(w: W.World, env: Env, c: Call)
    requires WorldInv(w) && ClockInv(w, env.now)
    ensures ClockInv(Step(w, env, c), env.now)
    ensures W.OpenTime(Step(w, env, c), env.now) == W.OpenTime(w, env.now)
  {
    if Exec(w, env, c).Ok? {
      var w' := Step(w, env, c);
      if c.CreateEvent? {
        CreateOpens(w, env, c.params, c.op);
        OpenTimeSame(w, w', env.now);
      } else if EventOf(c).Some? {
        CallActs(w, env, c);
        ActsKeepClock(w, w', EventOf(c).value, OpOf(w, env, c, w.books[EventOf(c).value]));
        OpenTimeSame(w, w', env.now);
      } else {
        AdministerClock(w, env, c);
      }
    }
  }

  /** Between calls the clock runs with ledger time, and stands still while paused. */
  lemma OpenTimeRuns(w: W.World, now: U64, later: U64)
    requires ClockInv(w, now) && now <= later
    ensures ClockInv(w, later)
    ensures W.OpenTime(w, later) == W.OpenTime(w, now) + if w.pausedAt.Some? then 0 else later - now
  {
  }

  // ---- every run keeps the invariant -----------------------------------------------------

  lemma DeployedInv(bal: Balances, admin: Address, account: Address, bps: U32, ds: U32, now: U64)
    requires W.Deployed(bal, admin, account, bps, ds).Ok?
    ensures RunInv(W.Deployed(bal, admin, account, bps, ds).value, now)
  {
    var w := W.Deployed(bal, admin, account, bps, ds).value;
    forall t
      ensures BackedIn(w.books, w.bal, t)
    {
      assert Nets(w.books, t) == map[];
    }
  }

  lemma StepKeeps(w: W.World, now: U64, env: Env, c: Call)
    requires RunInv(w, now) && now <= env.now && Premise(w, c)
    ensures RunInv(Step(w, env, c), env.now)
  {
    OpenTimeRuns(w, now, env.now);
    StepKeepsWorld(w, env, c);
    StepKeepsClock(w, env, c);
  }

  lemma {:induction false} RunKeeps(w: W.World, start: U64, run: Run)
    requires RunInv(w, start) && Lawful(w, start, run)
    ensures RunInv(After(w, run), EndTime(start, run))
    ensures start <= EndTime(start, run)
    decreases |run|
  {
    if run != [] {
      var init, last := run[..|run| - 1], run[|run| - 1];
      RunKeeps(w, start, init);
      StepKeeps(After(w, init), EndTime(start, init), last.0, last.1);
    }
  }

  /** The invariant of every event and of the contract's balances holds in every reachable state. */
  lemma ReachableInv(w: W.World, now: U64)
    requires Reachable(w, now)
    ensures RunInv(w, now)
  {
    var w0, start, run :| Leads(w0, start, run, w, now);
    var bal, admin, account, bps, ds :| W.Deployed(bal, admin, account, bps, ds) == Ok(w0);
    DeployedInv(bal, admin, account, bps, ds, start);
    RunKeeps(w0, start, run);
    OpenTimeRuns(w, EndTime(start, run), now);
  }

  /** Deployments are reachable, and so is whatever a lawful call leads to from there. */
  lemma DeploymentIsReachable(bal: Balances, admin: Address, account: Address, bps: U32, ds: U32, now: U64)
    requires bps <= 1_000
    ensures Reachable(W.Deployed(bal, admin, account, bps, ds).value, now)
  {
    var w := W.Deployed(bal, admin, account, bps, ds).value;
    assert Leads(w, now, [], w, now);
  }

  lemma StepIsReachable(w: W.World, now: U64, env: Env, c: Call)
    requires Reachable(w, now) && now <= env.now && Premise(w, c)
    ensures Reachable(Step(w, env, c), env.now)
  {
    var w0, start, run :| Leads(w0, start, run, w, now);
    var longer := run + [(env, c)];
    assert longer[..|longer| - 1] == run;
    assert Leads(w0, start, longer, Step(w, env, c), env.now);
  }

  // ---- what a run does to one event ------------------------------------------------------

  /** The step a call takes on the event id: at most one. */
  ghost function OpFor(w: W.World, env: Env, c: Call, id: U64): Option<Op> {
    if Exec(w, env, c).Ok? && EventOf(c) == Some(id) && id in w.books then Some(OpOf(w, env, c, w.books[id]))
    else None
  }

  ghost predicate BookSteps(b: Book, b': Book, op: Option<Op>) {
    if op.None? then b' == b else Enabled(b, op.value) && Fits(b, op.value) && b' == Apply(b, op.value)
  }

  /** The call took this step, or none, on the event id. */
  ghost predicate EventSteps(w: W.World, w': W.World, id: U64, op: Option<Op>) {
    id in w.books && id in w'.books && BookSteps(w.books[id], w'.books[id], op)
  }

  lemma ActsOnBooks(w: W.World, w': W.World, id: U64, op: Op, other: U64)
    requires Acts(w, w', id, op) && Fits(w.books[id], op) && other in w.books
    ensures EventSteps(w, w', other, if other == id then Some(op) else None)
  {
  }

  lemma OpensLeaves(w: W.World, w': W.World, id: U64, b: Book, other: U64)
    requires Opens(w, w', id, b) && other in w.books
    ensures EventSteps(w, w', other, None)
  {
  }

  lemma EventCallBook(w: W.World, env: Env, c: Call, id: U64)
    requires id in w.books && EventOf(c).Some? && CallIsStep(w, env, c) && Exec(w, env, c).Ok?
    requires Fits(w.books[EventOf(c).value], OpOf(w, env, c, w.books[EventOf(c).value]))
    ensures EventSteps(w, Step(w, env, c), id, OpFor(w, env, c, id))
  {
    var i := EventOf(c).value;
    ActsOnBooks(w, Step(w, env, c), i, OpOf(w, env, c, w.books[i]), id);
  }

  lemma CreateCallBook(w: W.World, env: Env, c: Call, id: U64)
    requires BooksInv(w) && id in w.books && c.CreateEvent? && W.CreateEvent(w, env, c.params, c.op).Ok?
    ensures EventSteps(w, W.CreateEvent(w, env, c.params, c.op).value.0, id, None)
  {
    CreateOpens(w, env, c.params, c.op);
    var (w', i) := W.CreateEvent(w, env, c.params, c.op).value;
    OpensLeaves(w, w', i, w'.books[i], id);
  }

  lemma AdministerBooks(w: W.World, env: Env, c: Call, id: U64)
    requires EventOf(c).None? && !c.CreateEvent? && Administer(w, env, c).Ok? && id in w.books
    ensures EventSteps(w, Administer(w, env, c).value, id, None)
  {
  }

  lemma NamedCallBook(w: W.World, env: Env, c: Call, id: U64)
    requires WorldInv(w) && Premise(w, c) && id in w.books && EventOf(c).Some? && Exec(w, env, c).Ok?
    ensures EventSteps(w, Step(w, env, c), id, OpFor(w, env, c, id))
  {
    CallActs(w, env, c);
    PremiseFits(w, env, c);
    EventCallBook(w, env, c, id);
  }

  lemma OtherCallBook(w: W.World, env: Env, c: Call, id: U64)
    requires BooksInv(w) && id in w.books && EventOf(c).None? && Exec(w, env, c).Ok?
    ensures EventSteps(w, Step(w, env, c), id, None)
  {
    if c.CreateEvent? {
      CreateCallBook(w, env, c, id);
    } else {
      AdministerBooks(w, env, c, id);
    }
  }

  /** A call leaves an event's book alone or takes one enabled step on it. */
  lemma BookStep(w: W.World, env: Env, c: Call, id: U64)
    requires WorldInv(w) && Premise(w, c) && id in w.books
    ensures EventSteps(w, Step(w, env, c), id, OpFor(w, env, c, id))
  {
    if Exec(w, env, c).Err? {
      assert Step(w, env, c) == w;
    } else if EventOf(c).Some? {
      NamedCallBook(w, env, c, id);
    } else {
      OtherCallBook(w, env, c, id);
      assert OpFor(w, env, c, id) == None;
    }
  }
}
