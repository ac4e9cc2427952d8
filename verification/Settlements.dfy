/** What the steps of a grant's history settle, release by release and forfeit by forfeit. */
module Settlements {
  import opened Numeric
  import opened Sums
  import opened Types
  import opened Escrow
  import opened Milestones
  import opened Books
  import opened Audit
  import opened Invariants
  import opened Steps
  import opened Preservation
  import opened Calls
  import opened Safety
  import opened Runs
  import opened Histories
  import opened Walks
  import opened Guarantees
  import W = World

  /** One milestone settled: released, or forfeited. */
  datatype Settlement = Settlement(milestone: U32, amount: I128, released: bool)

  /** The settlement a step makes of a milestone of r, if it makes one. */
  function SettlementOf(b: Book, op: Op, r: Address): Option<Settlement> {
    match op
    case ClaimGrant(recipient, m, _) =>
      if recipient == r then Some(Settlement(m, GrantShare(b, r, m).GetOr(0), true)) else None
    case ForfeitGrant(recipient, m) =>
      if recipient == r then Some(Settlement(m, GrantShare(b, r, m).GetOr(0), false)) else None
    case _ => None
  }

  function Noted(ss: seq<Settlement>, s: Option<Settlement>): seq<Settlement> { ss + if s.Some? then [s.value] else [] }

  /** What the steps of a history settle for r, in their order. */
  function SettledIn(b: Book, ops: seq<Op>, r: Address): seq<Settlement> {
    if ops == [] then []
    else
      var init := ops[..|ops| - 1];
      Noted(SettledIn(b, init, r), SettlementOf(ApplyAll(b, init), ops[|ops| - 1], r))
  }

  function OrderOf(ss: seq<Settlement>): (xs: seq<U32>)
    ensures |xs| == |ss|
  {
    seq(|ss|, i requires 0 <= i < |ss| => ss[i].milestone)
  }

  function WorthOf(ss: seq<Settlement>): (xs: seq<I128>)
    ensures |xs| == |ss|
  {
    seq(|ss|, i requires 0 <= i < |ss| => ss[i].amount)
  }

  function ForfeitsOf(ss: seq<Settlement>): (xs: seq<int>)
    ensures |xs| == |ss|
  {
    seq(|ss|, i requires 0 <= i < |ss| => if ss[i].released then 0 else ss[i].amount)
  }

  /** What the forfeits of a history took from r. */
  function ForfeitedIn(b: Book, ops: seq<Op>, r: Address): int { Sum(ForfeitsOf(SettledIn(b, ops, r))) }

  // ---- what one step does to the records of one recipient --------------------------------

  /** The records of r a step may change. */
  datatype Account = Account(flags: set<U32>, progress: GrantProgress, paid: int)

  ghost function AccountOf(b: Book, r: Address): Account {
    Account(FlagsOf(b.flags, r), ProgressOf(b.progress, r), PaidTo(b.moves, r))
  }

  /** A settlement flags its milestone, advances the progress and, if released, pays. */
  function Settle(x: Account, s: Settlement): Account {
    Account(x.flags + {s.milestone}, Advance(x.progress, s.amount), x.paid + if s.released then s.amount else 0)
  }

  /** The step leaves r's records alone, or settles s in them. */
  ghost predicate SettlesAs(b: Book, b': Book, r: Address, s: Option<Settlement>) {
    AccountOf(b', r) == if s.Some? then Settle(AccountOf(b, r), s.value) else AccountOf(b, r)
  }

  lemma RecordedFor(b: Book, x: Address, m: U32, amount: I128, r: Address)
    ensures var b' := RecordSettlement(b, x, m, amount);
            && FlagsOf(b'.flags, r) == (if x == r then FlagsOf(b.flags, r) + {m} else FlagsOf(b.flags, r))
            && ProgressOf(b'.progress, r) ==
               (if x == r then Advance(ProgressOf(b.progress, r), amount) else ProgressOf(b.progress, r))
  {
  }

  lemma AccountSettles(b: Book, b': Book, x: Address, m: U32, amount: I128, released: bool, r: Address)
    requires b'.flags == RecordSettlement(b, x, m, amount).flags
    requires b'.progress == RecordSettlement(b, x, m, amount).progress
    requires PaidTo(b'.moves, r) == PaidTo(b.moves, r) + if released && x == r then amount else 0
    ensures SettlesAs(b, b', r, if x == r then Some(Settlement(m, amount, released)) else None)
  {
    RecordedFor(b, x, m, amount, r);
  }

  lemma ClaimSettles(b: Book, x: Address, m: U32, now: U64, r: Address)
    requires ClaimGrantOk(b, x, m) && b.roster.Some?
    ensures SettlesAs(b, ClaimGrantStep(b, x, m, now), r, SettlementOf(b, ClaimGrant(x, m, now), r))
  {
    var amount := GrantShare(b, x, m).value;
    ClaimedGrant(b, x, m, now);
    AppendFor(b.moves, Payout(x, amount), r);
    AccountSettles(b, ClaimGrantStep(b, x, m, now), x, m, amount, true, r);
  }

  lemma ForfeitSettles(b: Book, x: Address, m: U32, r: Address)
    requires SettleOk(b, x, m)
    ensures SettlesAs(b, ForfeitGrantStep(b, x, m), r, SettlementOf(b, ForfeitGrant(x, m), r))
  {
    ForfeitedFields(b, x, m);
    AccountSettles(b, ForfeitGrantStep(b, x, m), x, m, GrantShare(b, x, m).value, false, r);
  }

  lemma {:induction false} CrankKeepsRecords(b: Book, accepted: seq<bool>)
    ensures CrankAll(b, accepted).flags == b.flags && CrankAll(b, accepted).progress == b.progress
    decreases |accepted|
  {
    if accepted != [] && MoreSlots(b) {
      CrankKeepsRecords(CrankSlot(b, accepted[0]), accepted[1..]);
    }
  }

  lemma OthersKeepRecords(b: Book, op: Op)
    requires Enabled(b, op) && !op.ClaimGrant? && !op.ForfeitGrant?
    requires b.ev.pillar.Grant? && GrantKind(b.ev.releaseKind)
    ensures Apply(b, op).flags == b.flags && Apply(b, op).progress == b.progress
  {
    if op.Crank? {
      CrankKeepsRecords(b, op.accepted);
    }
  }

  lemma OthersKeepAccount(b: Book, op: Op, r: Address)
    requires Enabled(b, op) && !op.ClaimGrant? && !op.ForfeitGrant?
    requires b.ev.pillar.Grant? && GrantKind(b.ev.releaseKind)
    ensures SettlesAs(b, Apply(b, op), r, None)
  {
    OthersKeepRecords(b, op);
    if op.SelectGrants? {
      assert Apply(b, op).moves == b.moves;
    } else {
      OtherStepsStay(b, op);
    }
  }

  lemma SettlingNeedsRoster(b: Book, op: Op)
    requires Enabled(b, op) && (op.ClaimGrant? || op.ForfeitGrant?)
    ensures b.roster.Some? && op.recipient in b.roster.value
  {
  }

  /** Every step of a grant leaves r's records alone, or settles one milestone in them. */
  lemma StepSettles(b: Book, op: Op, r: Address)
    requires b.ev.pillar.Grant? && GrantKind(b.ev.releaseKind) && Enabled(b, op)
    ensures SettlesAs(b, Apply(b, op), r, SettlementOf(b, op, r))
  {
    if op.ClaimGrant? {
      SettlingNeedsRoster(b, op);
      ClaimSettles(b, op.recipient, op.milestone, op.now, r);
    } else if op.ForfeitGrant? {
      ForfeitSettles(b, op.recipient, op.milestone, r);
    } else {
      OthersKeepAccount(b, op, r);
    }
  }

  // ---- settled = paid + forfeited --------------------------------------------------------

  lemma NotedSums(ss: seq<Settlement>, s: Settlement)
    ensures Sum(WorthOf(ss + [s])) == Sum(WorthOf(ss)) + s.amount
    ensures Sum(ForfeitsOf(ss + [s])) == Sum(ForfeitsOf(ss)) + if s.released then 0 else s.amount
  {
    assert WorthOf(ss + [s]) == WorthOf(ss) + [s.amount];
    assert ForfeitsOf(ss + [s]) == ForfeitsOf(ss) + [if s.released then 0 else s.amount];
    SumAppend(WorthOf(ss), s.amount);
    SumAppend(ForfeitsOf(ss), if s.released then 0 else s.amount);
  }

  /** The records of a recipient tell what these settlements came to. */
  ghost predicate Tells(x: Account, ss: seq<Settlement>) {
    && x.progress.settled == |ss|
    && x.progress.settledAmount == Sum(WorthOf(ss))
    && x.progress.settledAmount == x.paid + Sum(ForfeitsOf(ss))
    && (forall i :: 0 <= i < |ss| ==> ss[i].milestone in x.flags && ss[i].amount > 0)
    && Distinct(OrderOf(ss))
  }

  lemma TellsMore(x: Account, ss: seq<Settlement>, s: Settlement)
    requires Tells(x, ss) && s.milestone !in x.flags && s.amount > 0
    requires Advance(x.progress, s.amount).settled == x.progress.settled + 1
    requires Advance(x.progress, s.amount).settledAmount == x.progress.settledAmount + s.amount
    ensures Tells(Settle(x, s), ss + [s])
  {
    NotedSums(ss, s);
    assert OrderOf(ss + [s]) == OrderOf(ss) + [s.milestone];
  }

  /** What one settlement is: an unsettled milestone's share, positive and exactly recorded. */
  lemma SettlementIsShare(b: Book, op: Op, r: Address)
    requires GrantInv(b) && Enabled(b, op) && SettlementOf(b, op, r).Some?
    ensures var s := SettlementOf(b, op, r).value; var p := ProgressOf(b.progress, r);
            && s.milestone !in FlagsOf(b.flags, r) && s.amount > 0
            && GrantShare(b, r, s.milestone) == Ok(s.amount)
            && Advance(p, s.amount).settledAmount == p.settledAmount + s.amount
            && Advance(p, s.amount).settled == p.settled + 1
  {
    assert SettleOk(b, r, SettlementOf(b, op, r).value.milestone);
    SettlementShare(b, r, SettlementOf(b, op, r).value.milestone);
    SettledCounts(b, r, SettlementOf(b, op, r).value.milestone);
  }

  lemma SettledCounts(b: Book, r: Address, m: U32)
    requires GrantInv(b) && SettleOk(b, r, m)
    ensures SatAdd32(ProgressOf(b.progress, r).settled, 1) == ProgressOf(b.progress, r).settled + 1
  {
    var done := FlagsOf(b.flags, r);
    Pigeonhole(done + {m}, b.ev.releaseKind.Milestones().value);
  }

  lemma FreshTells(b: Book, r: Address)
    requires GrantInv(b) && b.roster.None?
    ensures Tells(AccountOf(b, r), [])
  {
    assert FlagsOf(b.flags, r) == {} && ProgressOf(b.progress, r) == GrantProgress(0, 0) && PaidTo(b.moves, r) == 0;
  }

  /** In every history of a grant from before its selection, a recipient's records tell
      exactly what the history's steps settled for it. */
  lemma {:induction false} HistoryTells(b: Book, ops: seq<Op>, r: Address)
    requires BookInv(b) && b.ev.pillar.Grant? && b.roster.None? && Allowed(b, ops)
    ensures Tells(AccountOf(ApplyAll(b, ops), r), SettledIn(b, ops, r))
    decreases |ops|
  {
    if ops == [] {
      assert GrantInv(b);
      FreshTells(b, r);
    } else {
      var init := ops[..|ops| - 1];
      HistoryTells(b, init, r);
      HistoryKeeps(b, init);
      Lifecycle(b, init);
      assert GrantInv(ApplyAll(b, init));
      StepTells(ApplyAll(b, init), ops[|ops| - 1], r, SettledIn(b, init, r));
    }
  }

  lemma SettledTells(b: Book, b': Book, r: Address, s: Settlement, ss: seq<Settlement>)
    requires Tells(AccountOf(b, r), ss) && SettlesAs(b, b', r, Some(s))
    requires s.milestone !in FlagsOf(b.flags, r) && s.amount > 0
    requires var p := ProgressOf(b.progress, r);
             && Advance(p, s.amount).settledAmount == p.settledAmount + s.amount
             && Advance(p, s.amount).settled == p.settled + 1
    ensures Tells(AccountOf(b', r), ss + [s])
  {
    TellsMore(AccountOf(b, r), ss, s);
  }

  lemma StepTells(b: Book, op: Op, r: Address, ss: seq<Settlement>)
    requires GrantInv(b) && b.ev.pillar.Grant? && Enabled(b, op) && Tells(AccountOf(b, r), ss)
    ensures Tells(AccountOf(Apply(b, op), r), Noted(ss, SettlementOf(b, op, r)))
  {
    var s := SettlementOf(b, op, r);
    StepSettles(b, op, r);
    if s.Some? {
      SettlementIsShare(b, op, r);
      SettledTells(b, Apply(b, op), r, s.value, ss);
    } else {
      assert Noted(ss, s) == ss;
    }
  }

  /** A recipient's settled amount is what it was paid plus what it forfeited, and, while a
      u32 can index the rows, its paid winner rows plus its forfeits: the record agrees with
      the walk it replaces. */
  lemma SettledIsPaidPlusForfeited(b: Book, ops: seq<Op>, r: Address)
    requires BookInv(b) && b.ev.pillar.Grant? && b.roster.None? && WalkAgrees(b) && Allowed(b, ops)
    ensures var b' := ApplyAll(b, ops); var settled := ProgressOf(b'.progress, r).settledAmount;
            && settled == PaidTo(b'.moves, r) + ForfeitedIn(b, ops, r)
            && settled == Sum(WorthOf(SettledIn(b, ops, r)))
            && (|b'.rows| <= U32_MAX ==> settled == Sum(PaidAmounts(b'.rows, r)) + ForfeitedIn(b, ops, r))
  {
    HistoryTells(b, ops, r);
    if |ApplyAll(b, ops).rows| <= U32_MAX {
      RecordsReplaceTheWalk(b, ops);
    }
  }

  // ---- any order, any mix ----------------------------------------------------------------

  /** The settlements of an award are those of settling its milestones in that order, and
      each but the one that leaves none open is its milestone's floored share. */
  ghost predicate InOrder(kind: ReleaseKind, award: I128, n: U32, p: GrantProgress, ss: seq<Settlement>) {
    && SettleInOrder(kind, award, GrantProgress(0, 0), n, OrderOf(ss)) == Ok(WorthOf(ss))
    && AdvanceAll(GrantProgress(0, 0), WorthOf(ss)) == p
    && (forall i :: 0 <= i < |ss| ==> ss[i].milestone < n)
    && (forall i :: 0 <= i < |ss| && i + 1 < n ==> MilestoneShare(kind, award, ss[i].milestone) == Ok(ss[i].amount))
  }

  lemma InOrderMore(kind: ReleaseKind, award: I128, n: U32, p: GrantProgress, ss: seq<Settlement>, s: Settlement)
    requires InOrder(kind, award, n, p, ss) && s.milestone < n && p.settled == |ss|
    requires Share(Standing(0, award, p.settled, p.settledAmount), kind, n, s.milestone) == Ok(s.amount)
    ensures InOrder(kind, award, n, Advance(p, s.amount), ss + [s])
  {
    SettleAppend(kind, award, GrantProgress(0, 0), n, OrderOf(ss), WorthOf(ss), s.milestone, s.amount);
    assert OrderOf(ss + [s]) == OrderOf(ss) + [s.milestone];
    assert WorthOf(ss + [s]) == WorthOf(ss) + [s.amount];
  }

  /** r has no award, and nothing settled; or its settlements are in order. */
  ghost predicate Ordered(b: Book, r: Address, ss: seq<Settlement>) {
    if b.roster.Some? && r in b.roster.value then
      b.ev.releaseKind.Milestones().Some? && 0 < b.ev.releaseKind.Milestones().value <= U32_MAX &&
      InOrder(b.ev.releaseKind, b.roster.value[r].amount, b.ev.releaseKind.Milestones().value,
              ProgressOf(b.progress, r), ss)
    else ss == []
  }

  lemma RosterStays(b: Book, op: Op)
    requires b.ev.pillar.Grant? && GrantKind(b.ev.releaseKind) && Enabled(b, op) && !op.SelectGrants?
    ensures Apply(b, op).roster == b.roster
  {
    if op.ClaimGrant? {
      SettlingNeedsRoster(b, op);
      ClaimedGrant(b, op.recipient, op.milestone, op.now);
    } else if op.ForfeitGrant? {
      ForfeitedFields(b, op.recipient, op.milestone);
    } else {
      OtherStepsStay(b, op);
    }
  }

  lemma SelectionStartsOrder(b: Book, specs: seq<WinnerSpec>, r: Address, ss: seq<Settlement>)
    requires BookInv(b) && b.ev.pillar.Grant? && SelectGrantsOk(b, specs)
    requires Tells(AccountOf(b, r), ss) && b.ev.releaseKind.Milestones().value <= U32_MAX
    ensures Ordered(SelectGrantsStep(b, specs), r, ss)
  {
    assert GrantInv(b) && b.roster.None?;
    assert ProgressOf(b.progress, r) == GrantProgress(0, 0);
    assert ss == [] && OrderOf(ss) == [] && WorthOf(ss) == [];
  }

  lemma KindIsIndexed(kind: ReleaseKind)
    requires GrantKind(kind)
    ensures kind.Milestones().Some? && 0 < kind.Milestones().value <= U32_MAX
  {
  }

  /** s settles an open milestone of r's award for the share it is due next. */
  ghost predicate DueNext(b: Book, r: Address, s: Settlement) {
    && b.roster.Some? && r in b.roster.value
    && var p, n := ProgressOf(b.progress, r), b.ev.releaseKind.Milestones();
    && n.Some? && 0 < n.value <= U32_MAX && s.milestone < n.value
    && Share(Standing(0, b.roster.value[r].amount, p.settled, p.settledAmount), b.ev.releaseKind, n.value,
             s.milestone) == Ok(s.amount)
  }

  lemma SettlingShare(b: Book, op: Op, r: Address)
    requires Enabled(b, op) && SettlementOf(b, op, r).Some?
    ensures DueNext(b, r, SettlementOf(b, op, r).value)
  {
    assert SettleOk(b, r, SettlementOf(b, op, r).value.milestone);
  }

  lemma SettledOrders(b: Book, b': Book, r: Address, s: Settlement, ss: seq<Settlement>)
    requires Tells(AccountOf(b, r), ss) && Ordered(b, r, ss) && SettlesAs(b, b', r, Some(s))
    requires b'.roster == b.roster && b'.ev.releaseKind == b.ev.releaseKind
    requires DueNext(b, r, s)
    ensures Ordered(b', r, ss + [s])
  {
    InOrderMore(b.ev.releaseKind, b.roster.value[r].amount, b.ev.releaseKind.Milestones().value,
                ProgressOf(b.progress, r), ss, s);
  }

  lemma UnsettledOrders(b: Book, b': Book, r: Address, ss: seq<Settlement>)
    requires Ordered(b, r, ss) && SettlesAs(b, b', r, None)
    requires b'.roster == b.roster && b'.ev.releaseKind == b.ev.releaseKind
    ensures Ordered(b', r, ss)
  {
  }

  lemma StepOrders(b: Book, op: Op, r: Address, ss: seq<Settlement>)
    requires b.ev.pillar.Grant? && GrantKind(b.ev.releaseKind) && Enabled(b, op) && !op.SelectGrants?
    requires Apply(b, op).ev.releaseKind == b.ev.releaseKind
    requires Tells(AccountOf(b, r), ss) && Ordered(b, r, ss)
    ensures Ordered(Apply(b, op), r, Noted(ss, SettlementOf(b, op, r)))
  {
    var s := SettlementOf(b, op, r);
    StepSettles(b, op, r);
    RosterStays(b, op);
    if s.Some? {
      SettlingShare(b, op, r);
      SettledOrders(b, Apply(b, op), r, s.value, ss);
    } else {
      UnsettledOrders(b, Apply(b, op), r, ss);
      assert Noted(ss, s) == ss;
    }
  }

  lemma NextOrders(b: Book, op: Op, r: Address, ss: seq<Settlement>)
    requires BookInv(b) && b.ev.pillar.Grant? && Enabled(b, op)
    requires Tells(AccountOf(b, r), ss) && Ordered(b, r, ss)
    ensures Ordered(Apply(b, op), r, Noted(ss, SettlementOf(b, op, r)))
  {
    assert GrantInv(b);
    StepMoves(b, op);
    if op.SelectGrants? {
      KindIsIndexed(b.ev.releaseKind);
      SelectionStartsOrder(b, op.specs, r, ss);
      assert Noted(ss, None) == ss;
    } else {
      StepOrders(b, op, r, ss);
    }
  }

  lemma {:induction false} HistoryOrders(b: Book, ops: seq<Op>, r: Address)
    requires BookInv(b) && b.ev.pillar.Grant? && b.roster.None? && Allowed(b, ops)
    ensures Ordered(ApplyAll(b, ops), r, SettledIn(b, ops, r))
    decreases |ops|
  {
    if ops != [] {
      var init := ops[..|ops| - 1];
      HistoryOrders(b, init, r);
      HistoryTells(b, init, r);
      HistoryKeeps(b, init);
      Lifecycle(b, init);
      NextOrders(ApplyAll(b, init), ops[|ops| - 1], r, SettledIn(b, init, r));
    }
  }

  lemma AcceptedAward(b: Book, r: Address)
    requires BookInv(b) && b.ev.pillar.Grant? && b.roster.Some? && r in b.roster.value
    ensures GrantKind(b.ev.releaseKind) && EveryMilestonePays(b.ev.releaseKind, b.roster.value[r].amount)
  {
    assert RecipientInv(b.ev.releaseKind, b.roster.value[r].amount, FlagsOf(b.flags, r), ProgressOf(b.progress, r),
                        PaidTo(b.moves, r));
  }

  /** Any-order settlement over histories: whatever releases and forfeits a grant's history
      makes of a recipient's milestones, in whatever order and however interleaved with
      other recipients' and with deposits, each milestone settles at most once, for its
      floored share unless it is the last; and once all have settled they come to exactly
      the award, the last exceeding its floored share by at most n - 1. */
  lemma HistorySettlesExactly(b: Book, ops: seq<Op>, r: Address)
    requires BookInv(b) && b.ev.pillar.Grant? && b.roster.None? && Allowed(b, ops)
    requires ApplyAll(b, ops).roster.Some? && r in ApplyAll(b, ops).roster.value
    ensures var b' := ApplyAll(b, ops); var ss := SettledIn(b, ops, r);
            var kind := b'.ev.releaseKind; var award := b'.roster.value[r].amount;
            && kind.Milestones().Some?
            && var n := kind.Milestones().value;
            && 0 < n && Distinct(OrderOf(ss)) && |ss| <= n
            && (forall i :: 0 <= i < |ss| ==> ss[i].amount > 0 && ss[i].milestone < n)
            && (forall i :: 0 <= i < |ss| && i + 1 < n ==>
                  MilestoneShare(kind, award, ss[i].milestone) == Ok(ss[i].amount))
            && (|ss| == n ==>
                  && Sum(WorthOf(ss)) == award
                  && MilestoneShare(kind, award, ss[n - 1].milestone).Ok?
                  && MilestoneShare(kind, award, ss[n - 1].milestone).value <= ss[n - 1].amount
                     <= MilestoneShare(kind, award, ss[n - 1].milestone).value + n - 1)
  {
    var b', ss := ApplyAll(b, ops), SettledIn(b, ops, r);
    HistoryKeeps(b, ops);
    Lifecycle(b, ops);
    HistoryTells(b, ops, r);
    HistoryOrders(b, ops, r);
    AcceptedAward(b', r);
    OrderSettlesExactly(b'.ev.releaseKind, b'.roster.value[r].amount, b'.ev.releaseKind.Milestones().value,
                        ProgressOf(b'.progress, r), ss);
  }

  lemma OrderSettlesExactly(kind: ReleaseKind, award: I128, n: U32, p: GrantProgress, ss: seq<Settlement>)
    requires GrantKind(kind) && EveryMilestonePays(kind, award) && kind.Milestones() == Some(n) && n > 0
    requires InOrder(kind, award, n, p, ss) && Distinct(OrderOf(ss))
    ensures |ss| <= n
    ensures |ss| == n ==>
              && Sum(WorthOf(ss)) == award
              && MilestoneShare(kind, award, ss[n - 1].milestone).Ok?
              && MilestoneShare(kind, award, ss[n - 1].milestone).value <= ss[n - 1].amount
                 <= MilestoneShare(kind, award, ss[n - 1].milestone).value + n - 1
  {
    SettledOnce(OrderOf(ss), n);
    if |ss| == n {
      AnyOrderSettlesExactly(kind, award, n, OrderOf(ss));
    }
  }

  lemma {:induction false} SettledOnce(order: seq<int>, n: nat)
    requires Distinct(order) && forall i :: 0 <= i < |order| ==> 0 <= order[i] < n
    ensures |order| <= n
  {
    var s := set i | 0 <= i < |order| :: order[i];
    SetOf(order, s);
    Pigeonhole(s, n);
  }

  lemma {:induction false} SetOf(order: seq<int>, s: set<int>)
    requires Distinct(order) && s == set i | 0 <= i < |order| :: order[i]
    ensures |s| == |order|
    decreases |order|
  {
    if order != [] {
      var init, last := order[..|order| - 1], order[|order| - 1];
      var t := set i | 0 <= i < |init| :: init[i];
      SetOf(init, t);
      assert s == t + {last} && last !in t;
    }
  }

  // ---- a completed grant never forfeited anything ----------------------------------------

  lemma ForfeitsNotNegative(x: Account, ss: seq<Settlement>)
    requires Tells(x, ss)
    ensures Sum(ForfeitsOf(ss)) >= 0
    ensures forall i :: 0 <= i < |ss| ==> ForfeitsOf(ss)[i] <= Sum(ForfeitsOf(ss))
  {
    SumNonNegative(ForfeitsOf(ss));
  }

  lemma {:induction false} ForfeitIsNoted(b: Book, ops: seq<Op>, k: nat) returns (i: nat)
    requires k < |ops| && ops[k].ForfeitGrant?
    ensures var ss := SettledIn(b, ops, ops[k].recipient);
            i < |ss| && !ss[i].released
    decreases |ops|
  {
    var r := ops[k].recipient;
    var init := ops[..|ops| - 1];
    if k == |init| {
      i := |SettledIn(b, init, r)|;
    } else {
      i := ForfeitIsNoted(b, init, k);
    }
  }

  /** A forfeit anywhere in a history is counted for its recipient. */
  lemma ForfeitCounts(b: Book, ops: seq<Op>, k: nat)
    requires BookInv(b) && b.ev.pillar.Grant? && b.roster.None? && Allowed(b, ops)
    requires k < |ops| && ops[k].ForfeitGrant?
    ensures ForfeitedIn(b, ops, ops[k].recipient) > 0
  {
    var r := ops[k].recipient;
    var i := ForfeitIsNoted(b, ops, k);
    HistoryTells(b, ops, r);
    ForfeitsNotNegative(AccountOf(ApplyAll(b, ops), r), SettledIn(b, ops, r));
    assert ForfeitsOf(SettledIn(b, ops, r))[i] > 0;
  }

  lemma CompletedPaidInFull(b: Book, r: Address)
    requires BookInv(b) && b.ev.pillar.Grant? && b.ev.status.Completed?
    ensures PaidTo(b.moves, r) >= ProgressOf(b.progress, r).settledAmount
  {
    CompletedMeansDelivered(b);
    assert GrantInv(b);
    if r in b.roster.value {
      TracksBounds(b.ev.releaseKind, b.roster.value[r].amount, FlagsOf(b.flags, r), ProgressOf(b.progress, r));
    }
  }

  /** A grant that completes never forfeited a milestone. */
  lemma CompletedNeverForfeited(b: Book, ops: seq<Op>)
    requires BookInv(b) && b.ev.pillar.Grant? && b.roster.None? && Allowed(b, ops)
    requires ApplyAll(b, ops).ev.status.Completed?
    ensures forall k :: 0 <= k < |ops| ==> !ops[k].ForfeitGrant?
    ensures forall r :: ForfeitedIn(b, ops, r) == 0
  {
    HistoryKeeps(b, ops);
    Lifecycle(b, ops);
    forall r
      ensures ForfeitedIn(b, ops, r) == 0
    {
      HistoryTells(b, ops, r);
      CompletedPaidInFull(ApplyAll(b, ops), r);
      ForfeitsNotNegative(AccountOf(ApplyAll(b, ops), r), SettledIn(b, ops, r));
    }
    forall k | 0 <= k < |ops|
      ensures !ops[k].ForfeitGrant?
    {
      if ops[k].ForfeitGrant? {
        ForfeitCounts(b, ops, k);
        assert false;
      }
    }
  }

  // ---- over runs -------------------------------------------------------------------------

  lemma CreationRuns(w: W.World, env: Env, p: CreateEventParams, op: OpId, w1: W.World, id: U64)
    requires RunInv(w, env.now) && W.CreateEvent(w, env, p, op) == Ok((w1, id)) && p.pillar.Grant?
    ensures RunInv(w1, env.now) && id in w1.books
    ensures BookInv(w1.books[id]) && w1.books[id].ev.pillar.Grant? && w1.books[id].roster.None?
    ensures WalkAgrees(w1.books[id])
  {
    var fee := ComputeFee(p.totalBudget, W.EffectiveFeeBps(w, p.feeBpsOverride));
    StepKeeps(w, env.now, env, Call.CreateEvent(p, op));
    CreateRecord(w, env, p, op, id, NewBook(W.NewRecord(p, id), fee));
    CreateTransfer(w, env, p, op);
    NewGrantWalks(W.NewRecord(p, id), fee);
  }

  /** From its creation on, in every run of the contract, a grant's records tell what the
      run settled: for every recipient, settled is paid plus forfeited, also as read off the
      winner rows, and a grant that completes has never forfeited anything. */
  lemma GrantRecordsTellTheRun(w: W.World, env: Env, p: CreateEventParams, op: OpId, w1: W.World, id: U64,
                               run: Run, w2: W.World, r: Address)
    requires RunInv(w, env.now) && W.CreateEvent(w, env, p, op) == Ok((w1, id)) && p.pillar.Grant?
    requires Lawful(w1, env.now, run) && w2 == After(w1, run)
    ensures id in w1.books && id in w2.books
    ensures var b := w2.books[id]; var settled := ProgressOf(b.progress, r).settledAmount;
            var forfeited := ForfeitedIn(w1.books[id], OpsOf(w1, run, id), r);
            && settled == PaidTo(b.moves, r) + forfeited
            && (|b.rows| <= U32_MAX ==> settled == Sum(PaidAmounts(b.rows, r)) + forfeited)
            && (b.ev.status.Completed? ==> forfeited == 0)
  {
    CreationRuns(w, env, p, op, w1, id);
    RunIsHistory(w1, env.now, run, id);
    SettledIsPaidPlusForfeited(w1.books[id], OpsOf(w1, run, id), r);
    if w2.books[id].ev.status.Completed? {
      CompletedNeverForfeited(w1.books[id], OpsOf(w1, run, id));
    }
  }

  /** ... and once every milestone of a recipient has settled, in whatever order and mix,
      what it was paid and what it forfeited make up exactly its award. */
  lemma GrantAwardsSettleExactly(w: W.World, env: Env, p: CreateEventParams, op: OpId, w1: W.World, id: U64,
                                 run: Run, w2: W.World, r: Address)
    requires RunInv(w, env.now) && W.CreateEvent(w, env, p, op) == Ok((w1, id)) && p.pillar.Grant?
    requires Lawful(w1, env.now, run) && w2 == After(w1, run)
    ensures id in w1.books && id in w2.books
    ensures var b := w2.books[id]; var ss := SettledIn(w1.books[id], OpsOf(w1, run, id), r);
            b.roster.Some? && r in b.roster.value && Some(|ss|) == b.ev.releaseKind.Milestones() ==>
              PaidTo(b.moves, r) + Sum(ForfeitsOf(ss)) == b.roster.value[r].amount
  {
    CreationRuns(w, env, p, op, w1, id);
    RunIsHistory(w1, env.now, run, id);
    SettledIsPaidPlusForfeited(w1.books[id], OpsOf(w1, run, id), r);
    if w2.books[id].roster.Some? && r in w2.books[id].roster.value {
      HistorySettlesExactly(w1.books[id], OpsOf(w1, run, id), r);
    }
  }
}
