/** What a campaign's claims release over a history without deposits. */
module Campaigns {
  import opened Numeric
  import opened Sums
  import opened Campaign
  import opened Books
  import opened Invariants
  import opened Steps
  import opened Histories

  /** The milestones a campaign has yet to release. */
  function Open(b: Book): int {
    if b.ev.releaseKind.Multi? then b.ev.releaseKind.n - b.campaignClaimed else 0
  }

  /** The gross amounts of a history's campaign claims, in their order. */
  function ReleasedIn(b: Book, ops: seq<Op>): seq<int> {
    if ops == [] then []
    else
      var before := ApplyAll(b, ops[..|ops| - 1]);
      ReleasedIn(b, ops[..|ops| - 1]) + if ops[|ops| - 1].ClaimCampaign? then [Gross(before)] else []
  }

  /** What the next claim releases. */
  function Gross(b: Book): int {
    if b.ev.releaseKind.Multi? then CampaignAmount(b, b.ev.releaseKind.n).GetOr(0) else 0
  }

  predicate Unfunded(ops: seq<Op>) { forall i :: 0 <= i < |ops| ==> !ops[i].Fund? }

  predicate Running(b: Book) { b.ev.status.Active? || b.ev.status.Completed? }

  /** The escrow of a campaign that started at `escrow` with `open` milestones to release. */
  ghost predicate OnCourse(b: Book, escrow: int, open: int, released: seq<int>)
    requires 0 <= escrow <= I128_MAX && 0 < open <= U32_MAX
  {
    && 0 <= Open(b) <= open
    && b.ev.remainingEscrow == escrow / open * Open(b) + Min(escrow % open, Open(b))
    && released == Releases(escrow, open)[..open - Open(b)]
  }

  /** In a running campaign, a step that is no deposit is a claim or changes no money. */
  lemma RunningSteps(b: Book, op: Op)
    requires BookInv(b) && b.ev.pillar.Crowdfunding? && Running(b) && Enabled(b, op) && !op.Fund?
    requires Running(Apply(b, op))
    ensures op.Delegate? || (op.ClaimCampaign? && b.ev.status.Active?)
  {
    assert CampaignInv(b) && (Running(b) ==> b.held == map[]);
  }

  lemma CourseAmount(escrow: int, open: int, e: I128, o: U32)
    requires 0 <= escrow <= I128_MAX && 0 < o <= open <= U32_MAX
    requires e == escrow / open * o + Min(escrow % open, o)
    ensures CampaignShare(e, o) == Releases(escrow, open)[open - o]
    ensures e - CampaignShare(e, o) == escrow / open * (o - 1) + Min(escrow % open, o - 1)
  {
    ReleasesAreNearEqual(escrow, open);
    QuotientBounds(escrow, open);
    FirstRelease(e, o, escrow / open, Min(escrow % open, o));
  }

  lemma ClaimStays(b: Book, m: U32, fee: I128, now: U64, escrow: int, open: int, released: seq<int>)
    requires CampaignInv(b) && ClaimCampaignOk(b, m, fee) && b.ev.status.Active?
    requires 0 <= escrow <= I128_MAX && 0 < open <= U32_MAX && OnCourse(b, escrow, open, released)
    ensures OnCourse(ClaimCampaignStep(b, m, fee, now), escrow, open, released + [Gross(b)])
  {
    var b', o := ClaimCampaignStep(b, m, fee, now), Open(b);
    CourseAmount(escrow, open, b.ev.remainingEscrow, o);
    assert Gross(b) == CampaignShare(b.ev.remainingEscrow, o);
    assert Open(b') == o - 1 && b'.ev.remainingEscrow == b.ev.remainingEscrow - Gross(b);
    var all := Releases(escrow, open);
    assert all[..open - o] + [all[open - o]] == all[..open - o + 1];
  }

  lemma StartOnCourse(b: Book)
    requires BookInv(b) && b.ev.pillar.Crowdfunding? && b.ev.status.Active?
    ensures 0 <= b.ev.remainingEscrow <= I128_MAX && 0 < Open(b) <= U32_MAX
    ensures OnCourse(b, b.ev.remainingEscrow, Open(b), [])
  {
    assert CampaignInv(b);
    var e, o := b.ev.remainingEscrow, Open(b);
    QuotientBounds(e, o);
    assert e == o * (e / o) + e % o;
  }

  /** Sequential release over histories: while no deposit comes in, the claims of a campaign
      release, in their order, exactly the near-equal releases of its escrow over its open
      milestones, and leave floor(R/k) for every open one with the remainder spread over
      the last. */
  lemma {:induction false} HistoryStaysOnCourse(b: Book, ops: seq<Op>)
    requires BookInv(b) && b.ev.pillar.Crowdfunding? && b.ev.status.Active? && Allowed(b, ops) && Unfunded(ops)
    requires Running(ApplyAll(b, ops))
    ensures 0 <= b.ev.remainingEscrow <= I128_MAX && 0 < Open(b) <= U32_MAX
    ensures OnCourse(ApplyAll(b, ops), b.ev.remainingEscrow, Open(b), ReleasedIn(b, ops))
    decreases |ops|
  {
    StartOnCourse(b);
    if ops != [] {
      var init, op := ops[..|ops| - 1], ops[|ops| - 1];
      var before := ApplyAll(b, init);
      HistoryKeeps(b, init);
      Lifecycle(b, init);
      StepMoves(before, op);
      HistoryStaysOnCourse(b, init);
      NextOnCourse(before, op, b.ev.remainingEscrow, Open(b), ReleasedIn(b, init));
    }
  }

  lemma NextOnCourse(b: Book, op: Op, escrow: int, open: int, released: seq<int>)
    requires BookInv(b) && b.ev.pillar.Crowdfunding? && Running(b) && Enabled(b, op) && !op.Fund?
    requires Running(Apply(b, op))
    requires 0 <= escrow <= I128_MAX && 0 < open <= U32_MAX && OnCourse(b, escrow, open, released)
    ensures OnCourse(Apply(b, op), escrow, open, released + if op.ClaimCampaign? then [Gross(b)] else [])
  {
    RunningSteps(b, op);
    if op.ClaimCampaign? {
      assert CampaignInv(b);
      ClaimStays(b, op.milestone, op.fee, op.now, escrow, open, released);
    } else {
      assert released + [] == released;
    }
  }

  lemma CompletedClosesAll(b: Book)
    requires BookInv(b) && b.ev.pillar.Crowdfunding? && b.ev.status.Completed?
    ensures Open(b) == 0
  {
    assert CampaignInv(b);
  }

  lemma WholeCourse(escrow: int, open: int, released: seq<int>)
    requires 0 <= escrow <= I128_MAX && 0 < open <= U32_MAX && released == Releases(escrow, open)[..open]
    ensures |released| == open && Sum(released) == escrow
    ensures forall i :: 0 <= i < open ==> escrow / open <= released[i] <= escrow / open + 1
    ensures forall i, j :: 0 <= i < j < open ==> released[i] <= released[j]
  {
    ReleasesAreNearEqual(escrow, open);
    assert released == Releases(escrow, open);
  }

  /** A campaign that completes without a further deposit has released exactly its escrow,
      in pieces that are floor(R/k) or one unit more, in nondecreasing order. */
  lemma CompletedCampaignReleasedAll(b: Book, ops: seq<Op>)
    requires BookInv(b) && b.ev.pillar.Crowdfunding? && b.ev.status.Active? && Allowed(b, ops) && Unfunded(ops)
    requires ApplyAll(b, ops).ev.status.Completed?
    ensures var xs, k := ReleasedIn(b, ops), Open(b);
            && k > 0 && |xs| == k && Sum(xs) == b.ev.remainingEscrow
            && (forall i :: 0 <= i < k ==> b.ev.remainingEscrow / k <= xs[i] <= b.ev.remainingEscrow / k + 1)
            && (forall i, j :: 0 <= i < j < k ==> xs[i] <= xs[j])
  {
    HistoryStaysOnCourse(b, ops);
    HistoryKeeps(b, ops);
    Lifecycle(b, ops);
    CompletedClosesAll(ApplyAll(b, ops));
    WholeCourse(b.ev.remainingEscrow, Open(b), ReleasedIn(b, ops));
  }
}
