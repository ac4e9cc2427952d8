/** The whitelist a run of the contract leaves, and the index kept beside it. */
module Registry {
  import opened Numeric
  import opened Types
  import opened Escrow
  import opened Calls
  import opened Safety
  import opened Runs
  import opened TokenIndex
  import W = World

  /** The change a call makes to the whitelist: registering and deregistering, when the
      admin asks. */
  function ChangeOf(w: W.World, env: Env, c: Call): seq<Change> {
    if (c.RegisterToken? || c.DeregisterToken?) && W.RequireAuth(env, w.admin) == Pass then
      [if c.RegisterToken? then Add(c.token) else Drop(c.token)]
    else []
  }

  function ChangesIn(w: W.World, run: Run): seq<Change> {
    if run == [] then []
    else
      var before := After(w, run[..|run| - 1]);
      ChangesIn(w, run[..|run| - 1]) + ChangeOf(before, run[|run| - 1].0, run[|run| - 1].1)
  }

  lemma AdministerChanges(w: W.World, env: Env, c: Call)
    requires EventOf(c).None? && !c.CreateEvent?
    ensures Administer(w, env, c).Ok? ==>
              Administer(w, env, c).value.supported == ReplaySet(w.supported, ChangeOf(w, env, c))
    ensures Administer(w, env, c).Err? ==> ChangeOf(w, env, c) == []
  {
    if ChangeOf(w, env, c) != [] {
      assert ChangeOf(w, env, c)[..0] == [];
    }
  }

  /** Only the two whitelist calls change what is supported, each by its own token. */
  lemma StepChanges(w: W.World, env: Env, c: Call)
    requires WorldInv(w)
    ensures Step(w, env, c).supported == ReplaySet(w.supported, ChangeOf(w, env, c))
  {
    if EventOf(c).None? && !c.CreateEvent? {
      AdministerChanges(w, env, c);
    } else if Exec(w, env, c).Ok? {
      if c.CreateEvent? {
        CreateOpens(w, env, c.params, c.op);
      } else {
        CallActs(w, env, c);
      }
    }
  }

  lemma ReplayMore(s: set<Address>, changes: seq<Change>, more: seq<Change>)
    requires |more| <= 1
    ensures ReplaySet(s, changes + more) == ReplaySet(ReplaySet(s, changes), more)
  {
    if more == [] {
      assert changes + more == changes;
    } else {
      assert (changes + more)[..|changes|] == changes;
      assert more[..0] == [];
    }
  }

  lemma {:induction false} RunChanges(w: W.World, start: U64, run: Run)
    requires RunInv(w, start) && Lawful(w, start, run)
    ensures After(w, run).supported == ReplaySet(w.supported, ChangesIn(w, run))
    decreases |run|
  {
    if run != [] {
      var init, last := run[..|run| - 1], run[|run| - 1];
      RunKeeps(w, start, init);
      RunChanges(w, start, init);
      StepChanges(After(w, init), last.0, last.1);
      ReplayMore(w.supported, ChangesIn(w, init), ChangeOf(After(w, init), last.0, last.1));
    }
  }

  /** Index and whitelist agree: over any run from a deployment, the index that follows the
      same registrations and deregistrations flags, slots and lists exactly the tokens the
      contract supports. */
  lemma IndexFollowsWhitelist(bal: Balances, admin: Address, account: Address, bps: U32, ds: U32, start: U64, run: Run)
    requires bps <= MAX_FEE_BPS
    requires Lawful(W.Deployed(bal, admin, account, bps, ds).value, start, run)
    requires Countable(ChangesIn(W.Deployed(bal, admin, account, bps, ds).value, run))
    ensures var w := W.Deployed(bal, admin, account, bps, ds).value;
            var ix, supported := Replay(EMPTY, ChangesIn(w, run)), After(w, run).supported;
            && ix.flags == supported && ix.slot.Keys == supported && ix.count == |supported|
            && forall t :: t in supported <==> exists i: U32 :: i < ix.count && i in ix.at && ix.at[i] == t
  {
    var w := W.Deployed(bal, admin, account, bps, ds).value;
    DeployedInv(bal, admin, account, bps, ds, start);
    RunChanges(w, start, run);
    IndexRefinesSet(ChangesIn(w, run));
  }
}
