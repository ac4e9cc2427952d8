/** The records the events contract stores, and the outcomes of its entry points. */
module Types {
  import opened Numeric

  datatype Address = Address(id: nat)

  datatype OpId = OpId(bits: nat)

  datatype Option<T> = None | Some(value: T) {
    function GetOr(default: T): T { if Some? then value else default }
  }

  /** The error codes of the lifecycle entry points. The last three are not codes of
      the contract: they stand for the host aborting the call. */
  datatype Error =
    | InvalidFeeBps | TokenNotSupported | EventNotFound | EventNotActive | InvalidPillar
    | InvalidReleaseKind | InvalidDistribution | InvalidBudget | TitleTooLong | NoSubmissions
    | InvalidWinnerPosition | DuplicateWinnerPosition | DistributionMismatch
    | MilestoneAlreadyClaimed | InvalidMilestone | InsufficientEscrow | WinnersAlreadySelected
    | BelowMinimumContribution | InvalidContributionAmount | OpAlreadySeen | TooManyContributors
    | CancellationNotStarted | CancellationAlreadyStarted | CancellationNotFinished
    | CancellationTotalMissing | MigrationAlreadyApplied | MigrationIncomplete | NotInitialized
    | Paused | EventIdOverflow | PrizeAlreadyClaimed | DuplicateRecipient
    | ReputationBumpTooLarge | InvalidBatchSize | NoRefundOwed | AwardsOutstanding
    | InvalidMilestoneSplit
    | Unauthorized | TransferRefused | InsufficientBalance

  datatype Result<T> = Ok(value: T) | Err(error: Error) {
    predicate IsFailure() { Err? }

    function PropagateFailure<U>(): Result<U>
      requires Err?
    {
      Err(error)
    }

    function Extract(): T
      requires Ok?
    {
      value
    }

    function GetOr(default: T): T { if Ok? then value else default }
  }

  datatype Outcome = Pass | Fail(error: Error) {
    predicate IsFailure() { Fail? }

    function PropagateFailure<U>(): Result<U>
      requires Fail?
    {
      Err(error)
    }
  }

  function Need(condition: bool, error: Error): Outcome {
    if condition then Pass else Fail(error)
  }

  datatype Pillar = Hackathon | Bounty | Grant | Crowdfunding

  datatype EventStatus = Active | Cancelled | Completed | Cancelling

  datatype CancellationBranch = OwnerOnly | FullPartnerThenResidual | ProRataPartners

  datatype CancellationState = CancellationState(
    nonOwnerTotal: I128,
    remainingAtStart: I128,
    countAtStart: U32,
    nextIdx: U32,
    branch: CancellationBranch)

  datatype ReleaseKind = Single | Multi(n: U32) | Split(shares: seq<U32>) {
    function Milestones(): Option<int> {
      match this
      case Single => None
      case Multi(n) => Some(n)
      case Split(shares) => Some(|shares|)
    }
  }

  /** An entry of the sorted map from positions to advertised minimum prizes. */
  datatype Floor = Floor(position: U32, amount: I128)

  datatype EventRecord = EventRecord(
    id: U64,
    pillar: Pillar,
    owner: Address,
    token: Address,
    totalBudget: I128,
    remainingEscrow: I128,
    releaseKind: ReleaseKind,
    status: EventStatus,
    prizeFloors: seq<Floor>,
    feeBpsOverride: Option<U32>)

  datatype CreateEventParams = CreateEventParams(
    pillar: Pillar,
    owner: Address,
    token: Address,
    totalBudget: I128,
    releaseKind: ReleaseKind,
    titleLen: U32,
    prizeFloors: seq<Floor>,
    feeBpsOverride: Option<U32>)

  datatype Winner = Winner(
    recipient: Address,
    position: U32,
    amount: I128,
    milestone: Option<U32>,
    paidAt: Option<U64>)

  datatype WinnerSpec = WinnerSpec(
    recipient: Address,
    position: U32,
    amount: I128,
    reputationBump: U32)

  datatype PrizeAward = PrizeAward(recipient: Address, anchorIdx: U32, reputationBump: U32)

  datatype GrantAward = GrantAward(position: U32, amount: I128)

  datatype GrantProgress = GrantProgress(settled: U32, settledAmount: I128)

  const MAX_TITLE_LEN := 120
  const MAX_AWARDS_PER_SELECT := 20
  const MAX_GRANT_AWARDS := 40
  const MAX_SPLIT_MILESTONES := 20
  const SPLIT_BPS_TOTAL := 10_000
  const PRIZE_CLAIM_WINDOW_SECS := 90 * 24 * 60 * 60
  const MAX_REFUNDS_PER_BATCH := 15
  const MIN_CONTRIBUTION_STROOPS := 100_000_000
  const MAX_REPUTATION_BUMP := 100
  const MAX_FEE_BPS := 1_000
}
