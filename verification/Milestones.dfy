/** How a grant award is divided over its milestones, in whatever order they settle. */
module Milestones {
  import opened Numeric
  import opened Sums
  import opened Types

  /** A recipient's award and how much of it has been settled. */
  datatype Standing = Standing(position: U32, award: I128, settled: U32, settledAmount: I128)

  function MilestoneShare(kind: ReleaseKind, award: I128, milestone: U32): Result<I128> {
    match kind
    case Multi(n) =>
      if n > 0 then Ok(TruncDiv(award, n)) else Err(InvalidReleaseKind)
    case Split(shares) =>
      if milestone >= |shares| then Err(InvalidMilestone)
      else if I128_MIN <= award * shares[milestone] <= I128_MAX then
        Ok(TruncDiv(award * shares[milestone], SPLIT_BPS_TOTAL))
      else Err(InvalidDistribution)
    case Single => Err(InvalidReleaseKind)
  }

  predicate EveryMilestonePays(kind: ReleaseKind, award: I128) {
    match kind
    case Multi(n) => n > 0 && award >= n
    case Split(shares) =>
      forall m: U32 :: m < |shares| ==>
        MilestoneShare(kind, award, m).Ok? && MilestoneShare(kind, award, m).value > 0
    case Single => false
  }

  function Share(s: Standing, kind: ReleaseKind, totalMilestones: U32, milestone: U32): Result<I128> {
    if SatAdd32(s.settled, 1) == totalMilestones then
      if I128_MIN <= s.award - s.settledAmount <= I128_MAX then Ok(s.award - s.settledAmount)
      else Err(InvalidDistribution)
    else MilestoneShare(kind, s.award, milestone)
  }

  /** A recipient's progress once one more milestone worth `amount` is settled. */
  function Advance(p: GrantProgress, amount: I128): GrantProgress {
    GrantProgress(SatAdd32(p.settled, 1), SatAdd(p.settledAmount, amount))
  }

  /** The basis points of a split that create_event accepts. */
  predicate ValidSplit(shares: seq<U32>) {
    && 0 < |shares| <= MAX_SPLIT_MILESTONES
    && (forall i :: 0 <= i < |shares| ==> shares[i] > 0)
    && Sum(shares) == SPLIT_BPS_TOTAL
  }

  /** A release kind a grant can have. */
  ghost predicate GrantKind(kind: ReleaseKind) {
    match kind
    case Multi(n) => n > 0
    case Split(shares) => ValidSplit(shares)
    case Single => false
  }

  /** The floored share of every milestone of an award. */
  ghost function Floors(kind: ReleaseKind, award: nat): (xs: seq<int>)
    requires GrantKind(kind)
    ensures |xs| == kind.Milestones().value
  {
    match kind
    case Multi(n) => seq(n, _ => award / n)
    case Split(shares) => seq(|shares|, i requires 0 <= i < |shares| => award * shares[i] / SPLIT_BPS_TOTAL)
  }

  lemma {:induction false} ConstantSum(n: nat, c: int)
    ensures Sum(seq(n, _ => c)) == n * c
  {
    if n > 0 {
      assert seq(n, _ => c) == seq(n - 1, _ => c) + [c];
      SumAppend(seq(n - 1, _ => c), c);
      ConstantSum(n - 1, c);
    }
  }

  /** Flooring at a common denominator loses less than one unit per part. */
  lemma {:induction false} SplitFloors(award: nat, shares: seq<int>, xs: seq<int>)
    requires |xs| == |shares|
    requires forall i :: 0 <= i < |shares| ==> shares[i] >= 0 && xs[i] == award * shares[i] / SPLIT_BPS_TOTAL
    ensures SPLIT_BPS_TOTAL * Sum(xs) <= award * Sum(shares) <= SPLIT_BPS_TOTAL * Sum(xs) + (SPLIT_BPS_TOTAL - 1) * |xs|
  {
    if shares != [] {
      SplitFloors(award, shares[1..], xs[1..]);
      assert award * Sum(shares) == award * shares[0] + award * Sum(shares[1..]);
    }
  }

  /** Each floor is what milestone_share computes; together they fall short of the award
      by less than one unit per milestone. */
  lemma FloorsProperty(kind: ReleaseKind, award: I128)
    requires GrantKind(kind) && EveryMilestonePays(kind, award)
    ensures award > 0
    ensures forall m: U32 :: m < |Floors(kind, award)| ==>
              MilestoneShare(kind, award, m) == Ok(Floors(kind, award)[m]) && Floors(kind, award)[m] > 0
    ensures 0 <= award - Sum(Floors(kind, award)) <= |Floors(kind, award)| - 1
  {
    match kind
    case Multi(n) =>
      QuotientBounds(award, n);
      ConstantSum(n, award / n);
      if award / n <= 0 {
        MulMonotone(award / n, 0, n);
      }
      assert Floors(kind, award) == seq(n, _ => award / n);
    case Split(shares) =>
      if award <= 0 {
        MulNonPositive(award, shares[0]);
      }
      SplitFloors(award, shares, Floors(kind, award));
  }

  lemma MulNonPositive(a: int, b: nat)
    requires a <= 0
    ensures a * b <= 0
  {
  }

  /** What a recipient's progress records once exactly the milestones in `done` are
      settled: their floored shares, or the whole award once none is left. */
  ghost predicate Tracks(kind: ReleaseKind, award: I128, done: set<int>, p: GrantProgress)
    requires GrantKind(kind) && award >= 0
  {
    var floors := Floors(kind, award);
    && Below(done, |floors|)
    && p.settled == |done|
    && p.settledAmount == if |done| == |floors| then award else Sum(Masked(floors, done))
  }

  lemma TracksNothing(kind: ReleaseKind, award: I128)
    requires GrantKind(kind) && award >= 0
    ensures Tracks(kind, award, {}, GrantProgress(0, 0))
  {
    var xs := Masked(Floors(kind, award), {});
    SumNonNegative(xs);
  }

  /** Until the last milestone settles, something is left to settle. */
  lemma TracksBounds(kind: ReleaseKind, award: I128, done: set<int>, p: GrantProgress)
    requires GrantKind(kind) && EveryMilestonePays(kind, award) && award >= 0
    requires Tracks(kind, award, done, p)
    ensures 0 <= p.settledAmount <= award
    ensures p.settledAmount == award <==> p.settled == |Floors(kind, award)|
    ensures forall i :: 0 <= i < |Floors(kind, award)| && p.settled == |Floors(kind, award)| ==> i in done
  {
    var floors := Floors(kind, award);
    FloorsProperty(kind, award);
    Pigeonhole(done, |floors|);
    assert forall i :: 0 <= i < |floors| ==> floors[i] > 0;
    SumNonNegative(Masked(floors, done));
    if |done| < |floors| {
      var open :| 0 <= open < |floors| && open !in done;
      MaskedInsert(floors, done, open);
      MaskedAtMost(floors, done + {open});
    }
  }

  lemma {:induction false} MaskedAtMost(xs: seq<int>, s: set<int>)
    requires forall i :: 0 <= i < |xs| ==> xs[i] >= 0
    ensures Sum(Masked(xs, s)) <= Sum(xs)
  {
    var rest := seq(|xs|, i requires 0 <= i < |xs| => if i in s then 0 else xs[i]);
    SumSplit(xs, Masked(xs, s), rest);
    SumNonNegative(rest);
  }

  lemma {:induction false} SumSplit(xs: seq<int>, ys: seq<int>, zs: seq<int>)
    requires |xs| == |ys| == |zs|
    requires forall i :: 0 <= i < |xs| ==> xs[i] == ys[i] + zs[i]
    ensures Sum(xs) == Sum(ys) + Sum(zs)
  {
    if xs != [] {
      SumSplit(xs[1..], ys[1..], zs[1..]);
    }
  }

  /** Settling one more milestone: it pays something, its floored share unless it is the
      last, then at most one unit per other milestone more; and the record stays exact. */
  lemma SettleOne(kind: ReleaseKind, award: I128, done: set<int>, p: GrantProgress, position: U32, m: U32)
    requires GrantKind(kind) && EveryMilestonePays(kind, award) && award >= 0
    requires Tracks(kind, award, done, p)
    requires m < |Floors(kind, award)| && m !in done
    requires |Floors(kind, award)| <= U32_MAX
    ensures var floors := Floors(kind, award);
            var r := Share(Standing(position, award, p.settled, p.settledAmount), kind, |floors|, m);
            && r.Ok?
            && 0 < r.value <= award - p.settledAmount
            && Tracks(kind, award, done + {m}, Advance(p, r.value))
            && Advance(p, r.value).settledAmount == p.settledAmount + r.value
            && (|done| + 1 < |floors| ==> r.value == floors[m])
            && (|done| + 1 == |floors| ==> floors[m] <= r.value <= floors[m] + |floors| - 1)
  {
    var floors := Floors(kind, award);
    FloorsProperty(kind, award);
    Pigeonhole(done, |floors|);
    Pigeonhole(done + {m}, |floors|);
    MaskedInsert(floors, done, m);
    TracksBounds(kind, award, done, p);
    MaskedAtMost(floors, done + {m});
    if |done| + 1 == |floors| {
      MaskedAll(floors, done + {m});
    }
  }

  /** The amounts an award pays when its milestones settle in the given order. */
  function SettleInOrder(kind: ReleaseKind, award: I128, p: GrantProgress, total: U32, order: seq<U32>)
    : Result<seq<I128>>
    decreases |order|
  {
    if order == [] then Ok([])
    else
      var amount :- Share(Standing(0, award, p.settled, p.settledAmount), kind, total, order[0]);
      var rest :- SettleInOrder(kind, award, Advance(p, amount), total, order[1..]);
      Ok([amount] + rest)
  }

  /** A recipient's progress once these amounts are settled one after the other. */
  function AdvanceAll(p: GrantProgress, amounts: seq<I128>): GrantProgress
    decreases |amounts|
  {
    if amounts == [] then p else AdvanceAll(Advance(p, amounts[0]), amounts[1..])
  }

  /** Settling one more milestone after an order pays its share of what that order left. */
  lemma {:induction false} SettleAppend(kind: ReleaseKind, award: I128, p: GrantProgress, total: U32, order: seq<U32>,
                                        amounts: seq<I128>, m: U32, amount: I128)
    requires SettleInOrder(kind, award, p, total, order) == Ok(amounts)
    requires var p' := AdvanceAll(p, amounts);
             Share(Standing(0, award, p'.settled, p'.settledAmount), kind, total, m) == Ok(amount)
    ensures SettleInOrder(kind, award, p, total, order + [m]) == Ok(amounts + [amount])
    ensures AdvanceAll(p, amounts + [amount]) == Advance(AdvanceAll(p, amounts), amount)
    decreases |order|
  {
    if order == [] {
      assert amounts == [] && order + [m] == [m] && amounts + [amount] == [amount];
      assert [m][1..] == [] && [amount][1..] == [] && [amount] + [] == [amount];
      assert SettleInOrder(kind, award, Advance(p, amount), total, []) == Ok([]);
    } else {
      var first := Share(Standing(0, award, p.settled, p.settledAmount), kind, total, order[0]).value;
      var rest := SettleInOrder(kind, award, Advance(p, first), total, order[1..]).value;
      assert amounts == [first] + rest && amounts[1..] == rest;
      SettleAppend(kind, award, Advance(p, first), total, order[1..], rest, m, amount);
      assert (order + [m])[1..] == order[1..] + [m];
      assert (amounts + [amount])[1..] == rest + [amount];
      assert [first] + (rest + [amount]) == amounts + [amount];
    }
  }

  ghost predicate Distinct(order: seq<int>) {
    forall i, j :: 0 <= i < j < |order| ==> order[i] != order[j]
  }

  /** What settling the milestones in `order` from here on pays: something each, floored
      shares but for the last, and what was left of the award in all. */
  ghost predicate PaysRest(kind: ReleaseKind, award: I128, p: GrantProgress, total: U32, order: seq<U32>,
                           paid: Result<seq<I128>>)
    requires GrantKind(kind) && award >= 0 && total == |Floors(kind, award)|
    requires forall i :: 0 <= i < |order| ==> order[i] < total
  {
    var floors := Floors(kind, award);
    && paid.Ok? && |paid.value| == |order|
    && Sum(paid.value) == award - p.settledAmount
    && (forall i :: 0 <= i < |order| ==> paid.value[i] > 0)
    && (forall i :: 0 <= i < |order| - 1 ==> paid.value[i] == floors[order[i]])
    && (order != [] ==>
          floors[order[|order| - 1]] <= paid.value[|order| - 1] <= floors[order[|order| - 1]] + total - 1)
  }

  lemma PaysOneMore(kind: ReleaseKind, award: I128, p: GrantProgress, p': GrantProgress, total: U32, order: seq<U32>,
                    amount: I128, rest: seq<I128>)
    requires GrantKind(kind) && award >= 0 && total == |Floors(kind, award)|
    requires order != [] && forall i :: 0 <= i < |order| ==> order[i] < total
    requires PaysRest(kind, award, p', total, order[1..], Ok(rest))
    requires amount > 0 && p'.settledAmount == p.settledAmount + amount
    requires |order| > 1 ==> amount == Floors(kind, award)[order[0]]
    requires |order| == 1 ==> Floors(kind, award)[order[0]] <= amount <= Floors(kind, award)[order[0]] + total - 1
    ensures PaysRest(kind, award, p, total, order, Ok([amount] + rest))
  {
    assert ([amount] + rest)[1..] == rest;
    assert forall i :: 0 < i < |order| ==> ([amount] + rest)[i] == rest[i - 1] && order[i] == order[1..][i - 1];
  }

  lemma {:induction false} SettleRest(kind: ReleaseKind, award: I128, done: set<int>, p: GrantProgress, total: U32,
                                      order: seq<U32>)
    requires GrantKind(kind) && EveryMilestonePays(kind, award) && award >= 0
    requires total == |Floors(kind, award)|
    requires Tracks(kind, award, done, p)
    requires Distinct(order)
    requires forall i :: 0 <= i < |order| ==> order[i] < total && order[i] !in done
    requires |done| + |order| == total
    ensures PaysRest(kind, award, p, total, order, SettleInOrder(kind, award, p, total, order))
    decreases |order|
  {
    if order == [] {
      TracksBounds(kind, award, done, p);
    } else {
      SettleOne(kind, award, done, p, 0, order[0]);
      var amount := Share(Standing(0, award, p.settled, p.settledAmount), kind, total, order[0]).value;
      SettleRest(kind, award, done + {order[0]}, Advance(p, amount), total, order[1..]);
      var rest := SettleInOrder(kind, award, Advance(p, amount), total, order[1..]).value;
      PaysOneMore(kind, award, p, Advance(p, amount), total, order, amount, rest);
    }
  }

  /** Any-order settlement: whatever order the milestones of an accepted award settle in,
      every one pays, they total the award exactly, each but the last pays its floored
      share, and the last pays at most one unit per other milestone above its own. */
  lemma AnyOrderSettlesExactly(kind: ReleaseKind, award: I128, total: U32, order: seq<U32>)
    requires GrantKind(kind) && EveryMilestonePays(kind, award)
    requires kind.Milestones() == Some(total)
    requires |order| == total && Distinct(order) && forall i :: 0 <= i < |order| ==> order[i] < total
    ensures var r := SettleInOrder(kind, award, GrantProgress(0, 0), total, order);
            && r.Ok? && |r.value| == total
            && Sum(r.value) == award
            && (forall i :: 0 <= i < total ==> r.value[i] > 0)
            && (forall i :: 0 <= i < total - 1 ==> Ok(r.value[i]) == MilestoneShare(kind, award, order[i]))
            && MilestoneShare(kind, award, order[total - 1]).Ok?
            && MilestoneShare(kind, award, order[total - 1]).value <= r.value[total - 1]
               <= MilestoneShare(kind, award, order[total - 1]).value + total - 1
  {
    FloorsProperty(kind, award);
    TracksNothing(kind, award);
    SettleRest(kind, award, {}, GrantProgress(0, 0), total, order);
  }

  /** The acceptance test is exact: an award it refuses has a milestone whose floored
      share is nothing or cannot be computed. */
  lemma RefusedAwardHasEmptyMilestone(kind: ReleaseKind, award: I128)
    requires GrantKind(kind)
    ensures EveryMilestonePays(kind, award) <==>
            forall m: U32 :: m < kind.Milestones().value ==>
              MilestoneShare(kind, award, m).Ok? && MilestoneShare(kind, award, m).value > 0
  {
    match kind
    case Multi(n) =>
      assert 0 < kind.Milestones().value;
      var q := TruncDiv(award, n);
      if award >= 0 {
        QuotientBounds(award, n);
      }
      assert MilestoneShare(kind, award, 0) == Ok(q);
      if award >= n && q <= 0 {
        MulMonotone(q, 0, n);
      }
      if 0 <= award < n && q > 0 {
        MulMonotone(1, q, n);
      }
      assert forall m: U32 :: m < n ==> MilestoneShare(kind, award, m) == Ok(q);
    case Split(_) =>
  }
}
