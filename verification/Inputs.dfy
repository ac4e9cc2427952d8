/** Calls from a deployment that lead where a reader would not expect. */
module Inputs {
  import opened Numeric
  import opened Sums
  import opened Types
  import opened Escrow
  import opened Campaign
  import opened Books
  import opened Invariants
  import opened Steps
  import opened Calls
  import opened Runs
  import opened Claims
  import Exactness
  import W = World

  const ADMIN := Address(1)
  const TOKEN := Address(2)
  const FEES := Address(3)
  const OWNER := Address(4)
  const BACKER := Address(5)
  const FRIEND := Address(6)

  /** Everyone signs, nobody is frozen. */
  const ENV := Env(0, {ADMIN, OWNER, BACKER, FRIEND}, {})

  /** A deployment that supports the token. */
  function Opened(bal: Balances, bps: U32): W.World
    requires bps <= MAX_FEE_BPS
  {
    W.Deployed(bal, ADMIN, FEES, bps, 1).value.(supported := {TOKEN})
  }

  lemma OpenedIsReachable(bal: Balances, bps: U32)
    requires bps <= MAX_FEE_BPS
    ensures Reachable(Opened(bal, bps), 0)
  {
    var w := W.Deployed(bal, ADMIN, FEES, bps, 1).value;
    DeploymentIsReachable(bal, ADMIN, FEES, bps, 1, 0);
    StepIsReachable(w, 0, ENV, Call.RegisterToken(TOKEN));
    assert w.supported + {TOKEN} == {TOKEN};
  }

  const FIRST_ID: U64 := 0x1_0000_0001

  function Params(pillar: Pillar, budget: I128, kind: ReleaseKind): CreateEventParams {
    CreateEventParams(pillar, OWNER, TOKEN, budget, kind, 0, [Floor(1, 1)], None)
  }

  lemma FloorOfOne()
    ensures FloorSum([Floor(1, 1)], 0) == Ok(1)
  {
    assert [Floor(1, 1)][1..] == [];
    assert FloorSum([], 1) == Ok(1);
  }

  // ---- a campaign with too many milestones -----------------------------------------------

  /** The state after OWNER creates a campaign of n milestones. */
  function WithCampaign(w: W.World, n: U32): W.World {
    var p := Params(Crowdfunding, 1, Multi(n));
    w.(books := map[FIRST_ID := NewBook(W.NewRecord(p, FIRST_ID), ComputeFee(1, w.feeBps))],
       seen := {(OWNER, OpId(1))}, nextId := Some(FIRST_ID + 1))
  }

  lemma CampaignCreated(bal: Balances, n: U32)
    requires n > 0
    ensures W.CreateEvent(Opened(bal, 0), ENV, Params(Crowdfunding, 1, Multi(n)), OpId(1))
            == Ok((WithCampaign(Opened(bal, 0), n), FIRST_ID))
  {
    FloorOfOne();
    var w := Opened(bal, 0);
    assert W.CheckParams(w, Params(Crowdfunding, 1, Multi(n))) == Pass;
    assert w.seen + {(OWNER, OpId(1))} == {(OWNER, OpId(1))};
    assert w.books == map[];
  }

  lemma CampaignIsReachable(bal: Balances, n: U32)
    requires n > 0
    ensures Reachable(WithCampaign(Opened(bal, 0), n), 0)
  {
    var c := Call.CreateEvent(Params(Crowdfunding, 1, Multi(n)), OpId(1));
    OpenedIsReachable(bal, 0);
    CampaignCreated(bal, n);
    StepIsReachable(Opened(bal, 0), 0, ENV, c);
  }

  /** The campaign's book after BACKER contributes. */
  function BackedBook(n: U32, amount: I128): Book {
    var b := NewBook(W.NewRecord(Params(Crowdfunding, 1, Multi(n)), FIRST_ID), ComputeFee(1, 0));
    b.(ev := b.ev.(remainingEscrow := amount),
       roll := Roll([BACKER], map[BACKER := 1], map[BACKER := amount]),
       nonOwnerTotal := Some(amount), moves := [Deposit(BACKER, amount)])
  }

  lemma CampaignBacked(bal: Balances, n: U32, amount: I128) returns (w: W.World)
    requires n > 0 && MIN_CONTRIBUTION_STROOPS <= amount <= BalanceOf(bal, TOKEN, BACKER)
    requires BalanceOf(bal, TOKEN, SELF) + amount < I128_MAX
    ensures Reachable(w, 0) && w.books == map[FIRST_ID := BackedBook(n, amount)]
    ensures w.feeBps == 0 && !w.paused && w.admin == ADMIN && w.validator.None? && w.feeAccount == FEES
    ensures w.seen == {(OWNER, OpId(1)), (BACKER, OpId(2))}
    ensures Transfer(bal, ENV, TOKEN, BACKER, SELF, amount) == Ok(w.bal)
  {
    var w0 := WithCampaign(Opened(bal, 0), n);
    var c := Call.AddFunds(FIRST_ID, BACKER, amount, OpId(2));
    CampaignIsReachable(bal, n);
    TransferEffect(bal, ENV, TOKEN, BACKER, SELF, amount);
    w := W.AddFunds(w0, ENV, FIRST_ID, BACKER, amount, OpId(2)).value;
    BackedBookWritten(n, amount);
    assert w.books == w0.books[FIRST_ID := BackedBook(n, amount)];
    StepIsReachable(w0, 0, ENV, c);
  }

  lemma BackedBookWritten(n: U32, amount: I128)
    requires amount > 0
    ensures var b := NewBook(W.NewRecord(Params(Crowdfunding, 1, Multi(n)), FIRST_ID), ComputeFee(1, 0));
            && Enter(b, BACKER) == Ok((Roll([BACKER], map[BACKER := 1], map[]), 0))
            && Credit(b, BACKER, Roll([BACKER], map[BACKER := 1], map[]), 0, amount, 0) == BackedBook(n, amount)
  {
    var b := NewBook(W.NewRecord(Params(Crowdfunding, 1, Multi(n)), FIRST_ID), ComputeFee(1, 0));
    assert b.moves + DepositMoves(BACKER, amount, 0) == [Deposit(BACKER, amount)];
    assert b.roll.list + [BACKER] == [BACKER];
  }

  /** With one milestone more than the smallest contribution has units, a release is nothing. */
  lemma TooManyMilestonesPayNothing()
    ensures CampaignShare(MIN_CONTRIBUTION_STROOPS, MIN_CONTRIBUTION_STROOPS + 1) == 0
  {
    QuotientIs(MIN_CONTRIBUTION_STROOPS, MIN_CONTRIBUTION_STROOPS + 1, 0);
  }

  /** A campaign that is stuck: after a deployment, its creation with 100,000,001 milestones
      and one accepted contribution of 100,000,000, no claim of any milestone, by anyone
      with whatever authorisations, can succeed. */
  lemma StuckCampaign() returns (w: W.World)
    ensures Reachable(w, 0) && FIRST_ID in w.books
    ensures var b := w.books[FIRST_ID];
            && b.ev.pillar.Crowdfunding? && b.ev.status.Active?
            && b.ev.releaseKind == Multi(MIN_CONTRIBUTION_STROOPS + 1)
            && b.ev.remainingEscrow == MIN_CONTRIBUTION_STROOPS
    ensures forall env, r, m: U32, bump: U32, op :: W.ClaimMilestone(w, env, FIRST_ID, r, m, bump, op).Err?
  {
    w := CampaignBacked(map[(TOKEN, BACKER) := MIN_CONTRIBUTION_STROOPS], MIN_CONTRIBUTION_STROOPS + 1,
                        MIN_CONTRIBUTION_STROOPS);
    ReachableInv(w, 0);
    forall env, r, m: U32, bump: U32, op
      ensures W.ClaimMilestone(w, env, FIRST_ID, r, m, bump, op).Err?
    {
      CampaignClaimedExactlyWhen(w, env, FIRST_ID, r, m, bump, op);
    }
  }

  // ---- a fee the saturating product clips ------------------------------------------------

  const LARGE: I128 := 10_000_000_000_000_000_000_000_000_000_000_000_000
  const HUGE: I128 := 100_000_000_000_000_000_000_000_000_000_000_000_000

  lemma ClippedFee()
    ensures ComputeFee(LARGE, 1_000) == I128_MAX / 10_000 < LARGE * 1_000 / 10_000
  {
  }

  /** A create_event that is charged less than its rate: at 1,000 bps a budget of 10^37 pays
      the fee account less than a fiftieth of the 10^36 a tenth would be. */
  lemma UnderchargedFee() returns (w: W.World, w': W.World, id: U64)
    ensures Reachable(w, 0) && w.feeBps == 1_000
    ensures W.CreateEvent(w, ENV, Params(Bounty, LARGE, Single), OpId(1)) == Ok((w', id))
    ensures BalanceOf(w'.bal, TOKEN, FEES) * 50 < LARGE * w.feeBps / 10_000
  {
    var bal: Balances := map[(TOKEN, OWNER) := HUGE];
    w := Opened(bal, 1_000);
    OpenedIsReachable(bal, 1_000);
    FloorOfOne();
    ClippedFee();
    var fee := ComputeFee(LARGE, 1_000);
    TransferEffect(bal, ENV, TOKEN, OWNER, SELF, LARGE + fee);
    var taken := Transfer(bal, ENV, TOKEN, OWNER, SELF, LARGE + fee).value;
    TransferEffect(taken, ENV, TOKEN, SELF, FEES, fee);
    var r := W.CreateEvent(w, ENV, Params(Bounty, LARGE, Single), OpId(1));
    w', id := r.value.0, r.value.1;
  }

  // ---- contributions past i128::MAX ------------------------------------------------------

  const BIG: I128 := 150_000_000_000_000_000_000_000_000_000_000_000_000
  const HALF: I128 := 75_000_000_000_000_000_000_000_000_000_000_000_000

  /** The campaign of two milestones, and what is known of it from its release on. */
  ghost predicate InHalf(w: W.World) {
    && FIRST_ID in w.books && !w.paused && w.feeAccount == FEES && (FRIEND, OpId(4)) !in w.seen
    && var b := w.books[FIRST_ID];
    && b.ev.status.Active? && b.ev.pillar.Crowdfunding? && b.ev.owner == OWNER && b.ev.token == TOKEN
    && b.ev.remainingEscrow == HALF && b.roll == BackedBook(2, BIG).roll && b.nonOwnerTotal == Some(BIG)
  }

  lemma HalfGoes(w: W.World)
    requires w.books == map[FIRST_ID := BackedBook(2, BIG)] && w.seen == {(OWNER, OpId(1)), (BACKER, OpId(2))}
    requires w.feeBps == 0 && !w.paused && w.admin == ADMIN && w.validator.None? && w.feeAccount == FEES
    requires Transfer(w.bal, ENV, TOKEN, SELF, OWNER, HALF).Ok?
    ensures W.ClaimMilestone(w, ENV, FIRST_ID, OWNER, 0, 0, OpId(3)).Ok?
    ensures var w' := W.ClaimMilestone(w, ENV, FIRST_ID, OWNER, 0, 0, OpId(3)).value;
            InHalf(w') && Ok(w'.bal) == Transfer(w.bal, ENV, TOKEN, SELF, OWNER, HALF)
  {
    HalfIsShare(w.books[FIRST_ID]);
  }

  /** OWNER releases the first of two milestones: half the escrow, and the total stays. */
  lemma HalfReleased() returns (w: W.World)
    ensures Reachable(w, 0) && InHalf(w)
    ensures BalanceOf(w.bal, TOKEN, OWNER) == HALF && BalanceOf(w.bal, TOKEN, SELF) == HALF
    ensures BalanceOf(w.bal, TOKEN, FRIEND) == 0
  {
    var bal: Balances := map[(TOKEN, BACKER) := BIG];
    var w1 := CampaignBacked(bal, 2, BIG);
    TransferEffect(bal, ENV, TOKEN, BACKER, SELF, BIG);
    TransferEffect(w1.bal, ENV, TOKEN, SELF, OWNER, HALF);
    HalfGoes(w1);
    w := W.ClaimMilestone(w1, ENV, FIRST_ID, OWNER, 0, 0, OpId(3)).value;
    ClaimIsReachable(w1, w);
  }

  lemma ClaimIsReachable(w: W.World, w': W.World)
    requires Reachable(w, 0) && W.ClaimMilestone(w, ENV, FIRST_ID, OWNER, 0, 0, OpId(3)) == Ok(w')
    ensures Reachable(w', 0)
  {
    StepIsReachable(w, 0, ENV, Call.ClaimMilestone(FIRST_ID, OWNER, 0, 0, OpId(3)));
  }

  lemma HalfIsShare(b: Book)
    requires b == BackedBook(2, BIG)
    ensures CampaignAmount(b, 2) == Ok(HALF) && ComputeFee(HALF, 0) == 0
    ensures var b' := PayCampaign(b, 0, HALF, 0, 0);
            && b'.ev == b.ev.(remainingEscrow := HALF) && b'.roll == b.roll && b'.nonOwnerTotal == b.nonOwnerTotal
  {
  }

  /** OWNER hands what was released to FRIEND. */
  lemma HandedOn() returns (w: W.World)
    ensures Reachable(w, 0) && InHalf(w)
    ensures BalanceOf(w.bal, TOKEN, FRIEND) == HALF && BalanceOf(w.bal, TOKEN, SELF) == HALF
  {
    var w2 := HalfReleased();
    TransferEffect(w2.bal, ENV, TOKEN, OWNER, FRIEND, HALF);
    var bal := Transfer(w2.bal, ENV, TOKEN, OWNER, FRIEND, HALF).value;
    w := w2.(bal := bal);
    StepIsReachable(w2, 0, ENV, External(bal));
  }

  lemma FriendContributes(w: W.World)
    requires InHalf(w) && Transfer(w.bal, ENV, TOKEN, FRIEND, SELF, HALF).Ok?
    ensures W.AddFunds(w, ENV, FIRST_ID, FRIEND, HALF, OpId(4)).Ok?
    ensures var w' := W.AddFunds(w, ENV, FIRST_ID, FRIEND, HALF, OpId(4)).value;
            FIRST_ID in w'.books && w'.books[FIRST_ID] == FundStep(w.books[FIRST_ID], FRIEND, HALF, 0)
  {
    assert Enter(w.books[FIRST_ID], FRIEND).Ok?;
  }

  /** Contributions whose stored total is no longer their sum: BACKER's 1.5 * 10^38 is half
      released and contributed again by FRIEND, the add_funds is accepted, and the total
      clips at i128::MAX while the list adds up to more. */
  lemma ClippedTotal() returns (w: W.World, w': W.World)
    ensures Reachable(w, 0) && W.AddFunds(w, ENV, FIRST_ID, FRIEND, HALF, OpId(4)) == Ok(w')
    ensures FIRST_ID in w'.books
    ensures w'.books[FIRST_ID].nonOwnerTotal != Some(Sum(Amounts(w'.books[FIRST_ID].roll)))
  {
    w := HandedOn();
    ReachableInv(w, 0);
    TransferEffect(w.bal, ENV, TOKEN, FRIEND, SELF, HALF);
    FriendContributes(w);
    w' := W.AddFunds(w, ENV, FIRST_ID, FRIEND, HALF, OpId(4)).value;
    ContributionTotals(w.books[FIRST_ID]);
  }

  lemma ContributionTotals(b: Book)
    requires BookInv(b) && b.ev.status.Active? && b.ev.owner == OWNER
    requires b.ev.remainingEscrow == HALF && b.roll == BackedBook(2, BIG).roll && b.nonOwnerTotal == Some(BIG)
    ensures var b' := FundStep(b, FRIEND, HALF, 0); b'.nonOwnerTotal != Some(Sum(Amounts(b'.roll)))
  {
    assert AmountOf(b.roll, FRIEND) == 0;
    Exactness.TotalMatchesScanExactlyWhen(b, FRIEND, HALF, 0);
  }
}
