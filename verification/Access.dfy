/** Who can do what, and what a pause stops. */
module Access {
  import opened Numeric
  import opened Types
  import opened Escrow
  import opened Calls
  import opened Runs
  import opened Replay
  import W = World

  /** The entry points that move money or promise it. */
  predicate MovesMoney(c: Call) {
    c.CreateEvent? || (EventOf(c).Some? && !c.Delegate?)
  }

  /** Cranking and finalizing a cancellation, which anyone may do. */
  predicate Permissionless(c: Call) { c.ProcessCancelBatch? || c.FinalizeCancel? }

  /** The calls only the admin can make. */
  predicate AdminOnly(c: Call) {
    c.Pause? || c.Unpause? || c.SetFeeBps? || c.SetFeeAccount? || c.RegisterToken? || c.DeregisterToken?
  }

  lemma AwardsClosed(w: W.World, env: Env, c: Call)
    requires w.paused && (c.AddFunds? || c.SelectWinners? || c.ClaimPrize?)
    ensures ExecAwards(w, env, c) == Err(Paused)
  {
  }

  lemma CancellationClosed(w: W.World, env: Env, c: Call)
    requires w.paused && (c.StartCancel? || c.ProcessCancelBatch? || c.FinalizeCancel? || c.ClaimRefund?)
    ensures ExecCancellation(w, env, c) == Err(Paused)
  {
  }

  lemma MilestonesClosed(w: W.World, env: Env, c: Call)
    requires w.paused && (c.ClaimMilestone? || c.ForfeitMilestone?)
    ensures ExecMilestones(w, env, c) == Err(Paused)
  {
  }

  /** While the contract is paused every entry point that moves or promises money is closed. */
  lemma PausedMeansClosed(w: W.World, env: Env, c: Call)
    requires w.paused && MovesMoney(c)
    ensures Exec(w, env, c) == Err(Paused) && Step(w, env, c) == w
  {
    if c.CreateEvent? {
      assert W.CreateEvent(w, env, c.params, c.op) == Err(Paused);
    } else if c.AddFunds? || c.SelectWinners? || c.ClaimPrize? {
      AwardsClosed(w, env, c);
    } else if c.ClaimMilestone? || c.ForfeitMilestone? {
      MilestonesClosed(w, env, c);
    } else {
      CancellationClosed(w, env, c);
    }
  }

  /** A pause the admin asks for goes through, closes every entry point that moves or
      promises money, and stops the claim clock for as long as it lasts. */
  lemma PauseStops(w: W.World, env: Env, w': W.World)
    requires RunInv(w, env.now) && W.Pause(w, env) == Ok(w')
    ensures w'.paused && w' == w.(paused := true, pausedAt := w'.pausedAt)
    ensures forall env': Env, c: Call :: MovesMoney(c) ==> Exec(w', env', c) == Err(Paused)
    ensures forall later: U64 :: env.now <= later ==> W.OpenTime(w', later) == W.OpenTime(w, env.now)
  {
    forall env': Env, c: Call | MovesMoney(c)
      ensures Exec(w', env', c) == Err(Paused)
    {
      PausedMeansClosed(w', env', c);
    }
  }

  /** Unpausing opens the contract again, and the claim clock goes on from where it stopped. */
  lemma UnpauseResumes(w: W.World, env: Env, w': W.World)
    requires RunInv(w, env.now) && W.Unpause(w, env) == Ok(w')
    ensures !w'.paused && w'.pausedAt.None?
    ensures w' == w.(paused := false, pausedAt := None, pausedSeconds := w'.pausedSeconds)
    ensures forall later: U64 :: env.now <= later ==> W.OpenTime(w', later) == W.OpenTime(w, env.now) + later - env.now
  {
  }

  /** The admin alone pauses, unpauses and sets the fee rate, up to a tenth, and always can. */
  lemma AdminCan(w: W.World, env: Env, bps: U32)
    ensures var admin := w.admin in env.auths && w.admin != SELF;
            && (W.Pause(w, env).Ok? <==> admin)
            && (W.Unpause(w, env).Ok? <==> admin)
            && (W.SetFeeBps(w, env, bps) == (if !admin then Err(Unauthorized)
                                             else if bps <= 1_000 then Ok(w.(feeBps := bps)) else Err(InvalidFeeBps)))
  {
  }

  /** The account this call acts for authorised it. */
  predicate SignedBy(env: Env, who: Address) { who in env.auths && who != SELF }

  lemma AwardsSigned(w: W.World, env: Env, c: Call)
    requires c.AddFunds? || c.SelectWinners? || c.ClaimPrize?
    requires ExecAwards(w, env, c).Ok?
    ensures KeyOf(w, c).Some? && SignedBy(env, KeyOf(w, c).value.0)
  {
  }

  lemma CancellationSigned(w: W.World, env: Env, c: Call)
    requires c.StartCancel? || c.ClaimRefund?
    requires ExecCancellation(w, env, c).Ok?
    ensures KeyOf(w, c).Some? && SignedBy(env, KeyOf(w, c).value.0)
  {
  }

  lemma ClaimSigned(w: W.World, env: Env, c: Call)
    requires c.ClaimMilestone? && ExecMilestones(w, env, c).Ok?
    ensures KeyOf(w, c).Some? && SignedBy(env, KeyOf(w, c).value.0)
    ensures c.id in w.books
    ensures w.books[c.id].ev.pillar.Crowdfunding? ==>
              SignedBy(env, if w.validator.Some? then w.validator.value else w.admin)
  {
  }

  lemma ForfeitSigned(w: W.World, env: Env, c: Call)
    requires c.ForfeitMilestone? && ExecMilestones(w, env, c).Ok?
    ensures KeyOf(w, c).Some? && SignedBy(env, KeyOf(w, c).value.0)
  {
  }

  lemma AdministerSigned(w: W.World, env: Env, c: Call)
    requires AdminOnly(c) && Administer(w, env, c).Ok?
    ensures SignedBy(env, w.admin)
  {
  }

  /** Every successful call was authorised by the account whose operation id it spends: the
      contributor, the event's manager, its owner or the prize's recipient. Only the crank
      and the finalization of a cancellation need nobody, a campaign release needs the
      validator besides, the admin while none is set, and administration needs the admin. */
  lemma CallsAreAuthorised(w: W.World, env: Env, c: Call)
    requires Exec(w, env, c).Ok?
    ensures MovesMoney(c) && !Permissionless(c) ==> KeyOf(w, c).Some? && SignedBy(env, KeyOf(w, c).value.0)
    ensures c.ClaimMilestone? && c.id in w.books && w.books[c.id].ev.pillar.Crowdfunding? ==>
              && (w.validator.Some? ==> SignedBy(env, w.validator.value))
              && (w.validator.None? ==> SignedBy(env, w.admin))
    ensures AdminOnly(c) ==> SignedBy(env, w.admin)
  {
    if c.CreateEvent? {
      assert W.CreateEvent(w, env, c.params, c.op).Ok?;
    } else if EventOf(c).None? {
      if AdminOnly(c) {
        AdministerSigned(w, env, c);
      }
    } else if c.AddFunds? || c.SelectWinners? || c.ClaimPrize? {
      AwardsSigned(w, env, c);
    } else if c.ClaimMilestone? {
      ClaimSigned(w, env, c);
    } else if c.ForfeitMilestone? {
      ForfeitSigned(w, env, c);
    } else if c.StartCancel? || c.ClaimRefund? {
      CancellationSigned(w, env, c);
    }
  }
}
