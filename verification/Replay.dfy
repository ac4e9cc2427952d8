/** Operation ids: no call that went through can go through again. */
module Replay {
  import opened Types
  import opened Escrow
  import opened Calls
  import opened Runs
  import W = World

  type Key = (Address, OpId)

  /** The domain and operation id a call spends. Pausing, fees, the token whitelist and the
      other administration calls take none. */
  function KeyOf(w: W.World, c: Call): Option<Key> {
    match c
    case CreateEvent(params, op) => Some((params.owner, op))
    case AddFunds(_, from, _, op) => Some((from, op))
    case StartCancel(id, op) =>
      if id !in w.books then None
      else if w.books[id].manager.Some? then Some((w.books[id].manager.value, op))
      else Some((w.books[id].ev.owner, op))
    case ProcessCancelBatch(_, _, op) => Some((SELF, op))
    case FinalizeCancel(_, op) => Some((SELF, op))
    case ClaimRefund(_, contributor, op) => Some((contributor, op))
    case SelectWinners(id, _, op) =>
      if id !in w.books then None
      else if w.books[id].manager.Some? then Some((w.books[id].manager.value, op))
      else Some((w.books[id].ev.owner, op))
    case ClaimPrize(id, position, op) =>
      if id in w.books && position in w.books[id].prizes.awards
      then Some((w.books[id].prizes.awards[position].recipient, op)) else None
    case ClaimMilestone(id, _, _, _, op) => if id in w.books then Some((w.books[id].ev.owner, op)) else None
    case ForfeitMilestone(id, _, _, op) => if id in w.books then Some((w.books[id].ev.owner, op)) else None
    case _ => None
  }

  /** The key was fresh and is now spent, and nothing else is. */
  ghost predicate Spends(w: W.World, w': W.World, key: Option<Key>) {
    if key.Some? then key.value !in w.seen && w'.seen == w.seen + {key.value} else w'.seen == w.seen
  }

  lemma AwardsSpend(w: W.World, env: Env, c: Call)
    requires c.AddFunds? || c.SelectWinners? || c.ClaimPrize?
    requires ExecAwards(w, env, c).Ok?
    ensures Spends(w, ExecAwards(w, env, c).value, KeyOf(w, c))
  {
  }

  lemma CancellationSpends(w: W.World, env: Env, c: Call)
    requires c.StartCancel? || c.ProcessCancelBatch? || c.FinalizeCancel? || c.ClaimRefund?
    requires ExecCancellation(w, env, c).Ok?
    ensures Spends(w, ExecCancellation(w, env, c).value, KeyOf(w, c))
  {
  }

  lemma ClaimMilestoneSpends(w: W.World, env: Env, c: Call)
    requires c.ClaimMilestone? && ExecMilestones(w, env, c).Ok?
    ensures Spends(w, ExecMilestones(w, env, c).value, KeyOf(w, c))
  {
  }

  lemma ForfeitSpends(w: W.World, env: Env, c: Call)
    requires c.ForfeitMilestone? && ExecMilestones(w, env, c).Ok?
    ensures Spends(w, ExecMilestones(w, env, c).value, KeyOf(w, c))
  {
  }

  lemma DelegateSpendsNothing(w: W.World, env: Env, c: Call)
    requires c.Delegate? && ExecMilestones(w, env, c).Ok?
    ensures Spends(w, ExecMilestones(w, env, c).value, None) && KeyOf(w, c).None?
  {
  }

  lemma CreateSpends(w: W.World, env: Env, p: CreateEventParams, op: OpId)
    requires W.CreateEvent(w, env, p, op).Ok?
    ensures Spends(w, W.CreateEvent(w, env, p, op).value.0, Some((p.owner, op)))
  {
  }

  lemma AdministerSpendsNothing(w: W.World, env: Env, c: Call)
    requires EventOf(c).None? && !c.CreateEvent? && Administer(w, env, c).Ok?
    ensures Spends(w, Administer(w, env, c).value, None) && KeyOf(w, c).None?
  {
  }

  /** A call that goes through spends its key, which nobody had spent. */
  lemma CallSpends(w: W.World, env: Env, c: Call)
    requires Exec(w, env, c).Ok?
    ensures Spends(w, Step(w, env, c), KeyOf(w, c))
  {
    if c.CreateEvent? {
      CreateSpends(w, env, c.params, c.op);
    } else if EventOf(c).None? {
      AdministerSpendsNothing(w, env, c);
    } else if c.AddFunds? || c.SelectWinners? || c.ClaimPrize? {
      AwardsSpend(w, env, c);
    } else if c.ClaimMilestone? {
      ClaimMilestoneSpends(w, env, c);
    } else if c.ForfeitMilestone? {
      ForfeitSpends(w, env, c);
    } else if c.Delegate? {
      DelegateSpendsNothing(w, env, c);
    } else {
      CancellationSpends(w, env, c);
    }
  }

  lemma {:induction false} SpentStaysSpent(w: W.World, run: Run)
    ensures w.seen <= After(w, run).seen
    decreases |run|
  {
    if run != [] {
      var init, last := run[..|run| - 1], run[|run| - 1];
      SpentStaysSpent(w, init);
      if Exec(After(w, init), last.0, last.1).Ok? {
        CallSpends(After(w, init), last.0, last.1);
      }
    }
  }

  lemma SpentKeyRefused(w: W.World, env: Env, c: Call)
    requires KeyOf(w, c).Some? && KeyOf(w, c).value in w.seen
    ensures Exec(w, env, c).Err?
  {
    if Exec(w, env, c).Ok? {
      CallSpends(w, env, c);
    }
  }

  /** No replay: once a call has gone through, no call with the same domain and operation
      id ever goes through again, whatever it asks for and whatever happens in between. */
  lemma NoReplay(w: W.World, env: Env, c: Call, w1: W.World, run: Run, w2: W.World, env': Env, c': Call)
    requires Exec(w, env, c).Ok? && w1 == Step(w, env, c) && w2 == After(w1, run)
    requires KeyOf(w, c).Some? && KeyOf(w2, c') == KeyOf(w, c)
    ensures Exec(w2, env', c').Err?
  {
    CallSpends(w, env, c);
    SpentStaysSpent(w1, run);
    assert KeyOf(w, c).value in w1.seen;
    SpentKeyRefused(w2, env', c');
  }
}
