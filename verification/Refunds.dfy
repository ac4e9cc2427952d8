/** How a cancelled event's escrow is divided among its contributors. */
module Refunds {
  import opened Numeric
  import opened Sums
  import opened Types

  /** The refund of a contributor who put in `amt`, by the terms fixed at start_cancel. The
      pro-rata divisor is positive in every state start_cancel writes (ValidTerms). */
  function RefundShare(st: CancellationState, amt: I128): I128 {
    match st.branch
    case FullPartnerThenResidual => amt
    case ProRataPartners =>
      if st.nonOwnerTotal > 0 then TruncDiv(SatMul(amt, st.remainingAtStart), st.nonOwnerTotal) else 0
    case OwnerOnly => 0
  }

  /** The branch start_cancel takes for an escrow and a contribution total. */
  function BranchFor(remaining: I128, nonOwnerTotal: I128): CancellationBranch {
    if nonOwnerTotal <= 0 then OwnerOnly
    else if remaining >= nonOwnerTotal then FullPartnerThenResidual
    else ProRataPartners
  }

  /** What is left for the owner once every contributor is refunded. */
  function OwnerResidual(st: CancellationState): I128 {
    if st.branch == FullPartnerThenResidual then SatSub(st.remainingAtStart, st.nonOwnerTotal) else 0
  }

  /** Terms start_cancel can have written: the branch is the one its figures call for. */
  ghost predicate ValidTerms(st: CancellationState) {
    && st.nonOwnerTotal > 0 && st.remainingAtStart >= 0
    && st.branch == BranchFor(st.remainingAtStart, st.nonOwnerTotal)
  }

  function Shares(st: CancellationState, amounts: seq<I128>): (xs: seq<int>)
    ensures |xs| == |amounts|
  {
    seq(|amounts|, i requires 0 <= i < |amounts| => RefundShare(st, amounts[i]))
  }

  /** No refund product saturates. */
  ghost predicate Exact(st: CancellationState, amounts: seq<I128>) {
    forall i :: 0 <= i < |amounts| ==> amounts[i] * st.remainingAtStart <= I128_MAX
  }

  /** A refund is the whole contribution, or its share of the escrow, the product clipped
      at its width and the quotient floored; never more than was put in. */
  lemma ShareBounds(st: CancellationState, amt: I128)
    requires ValidTerms(st) && amt >= 0
    ensures st.branch.FullPartnerThenResidual? ==> RefundShare(st, amt) == amt
    ensures st.branch.ProRataPartners? ==>
              RefundShare(st, amt) == Min(amt * st.remainingAtStart, I128_MAX) / st.nonOwnerTotal
    ensures 0 <= RefundShare(st, amt) <= amt
    ensures st.branch.ProRataPartners? ==>
              st.nonOwnerTotal * RefundShare(st, amt) <= amt * st.remainingAtStart
    ensures st.branch.ProRataPartners? && amt * st.remainingAtStart <= I128_MAX ==>
              amt * st.remainingAtStart < st.nonOwnerTotal * RefundShare(st, amt) + st.nonOwnerTotal
  {
    if st.branch.ProRataPartners? {
      FlooredProduct(amt, st.remainingAtStart, st.nonOwnerTotal);
    }
  }

  /** The pro-rata quotient over plain integers. */
  lemma FlooredProduct(a: nat, b: nat, t: int)
    requires b < t
    ensures 0 <= a * b
    ensures var share := Min(a * b, I128_MAX) / t;
            && 0 <= share <= a
            && t * share <= a * b
            && (a * b <= I128_MAX ==> a * b < t * share + t)
  {
    Products(a, b, t);
    var product := Min(a * b, I128_MAX);
    QuotientBounds(product, t);
    var share := product / t;
    if share > a {
      MulMonotone(a + 1, share, t);
      Distribute(t, a, 1);
    }
  }

  lemma Products(a: nat, b: nat, c: nat)
    requires b <= c
    ensures 0 <= a * b <= a * c
  {
  }

  /** Fairness: a larger contribution never gets a smaller refund. */
  lemma LargerContributionNoSmallerRefund(st: CancellationState, amt: I128, amt': I128)
    requires ValidTerms(st) && 0 <= amt <= amt'
    ensures RefundShare(st, amt) <= RefundShare(st, amt')
  {
    if st.branch.ProRataPartners? {
      MulMonotone(amt, amt', st.remainingAtStart);
      Products(amt, 0, st.remainingAtStart);
      QuotientMonotone(SatMul(amt, st.remainingAtStart), SatMul(amt', st.remainingAtStart), st.nonOwnerTotal);
    }
  }

  lemma {:induction false} ProRataSum(st: CancellationState, amounts: seq<I128>)
    requires ValidTerms(st) && st.branch.ProRataPartners?
    requires forall i :: 0 <= i < |amounts| ==> amounts[i] >= 0
    ensures st.nonOwnerTotal * Sum(Shares(st, amounts)) <= Sum(amounts) * st.remainingAtStart
    ensures Exact(st, amounts) ==>
              Sum(amounts) * st.remainingAtStart
              <= st.nonOwnerTotal * Sum(Shares(st, amounts)) + (st.nonOwnerTotal - 1) * |amounts|
  {
    if amounts != [] {
      ShareBounds(st, amounts[0]);
      ProRataSum(st, amounts[1..]);
      assert Shares(st, amounts)[1..] == Shares(st, amounts[1..]);
      assert Exact(st, amounts) ==> Exact(st, amounts[1..]) && amounts[0] * st.remainingAtStart <= I128_MAX;
      var head, tail := RefundShare(st, amounts[0]), Sum(Shares(st, amounts[1..]));
      Distribute(st.nonOwnerTotal, head, tail);
      Distribute(st.remainingAtStart, amounts[0], Sum(amounts[1..]));
      Distribute(st.nonOwnerTotal - 1, 1, |amounts| - 1);
    }
  }

  lemma Distribute(a: int, b: int, c: int)
    ensures a * (b + c) == a * b + a * c
    ensures (b + c) * a == b * a + c * a
  {
  }

  /** Pro-rata refunds never exceed the escrow, saturating or not; when no product
      saturates they leave less than one unit per contributor. */
  lemma ProRataWithinEscrow(st: CancellationState, amounts: seq<I128>)
    requires ValidTerms(st) && st.branch.ProRataPartners?
    requires forall i :: 0 <= i < |amounts| ==> amounts[i] >= 0
    requires Sum(amounts) == st.nonOwnerTotal
    ensures 0 <= Sum(Shares(st, amounts)) <= st.remainingAtStart
    ensures Exact(st, amounts) ==> st.remainingAtStart - Sum(Shares(st, amounts)) < |amounts|
  {
    ProRataSum(st, amounts);
    forall i | 0 <= i < |amounts|
      ensures Shares(st, amounts)[i] >= 0
    {
      ShareBounds(st, amounts[i]);
    }
    SumNonNegative(Shares(st, amounts));
    assert amounts != [];
    LeftOver(st.nonOwnerTotal, st.remainingAtStart, Sum(Shares(st, amounts)), |amounts|);
  }

  lemma LeftOver(t: int, escrow: int, paid: int, n: int)
    requires t > 0 && n > 0
    requires t * paid <= t * escrow
    ensures paid <= escrow
    ensures t * escrow <= t * paid + (t - 1) * n ==> escrow - paid < n
  {
    var left := escrow - paid;
    assert t * escrow == t * paid + t * left;
    if left < 0 {
      MulMonotone(left, -1, t);
    }
    if left >= n {
      MulMonotone(n, left, t);
      Distribute(n, t, -1);
    }
  }

  /** The full branch gives everyone their contribution back and the rest to the owner. */
  lemma FullRefundsUseTheEscrow(st: CancellationState, amounts: seq<I128>)
    requires ValidTerms(st) && st.branch.FullPartnerThenResidual?
    requires Sum(amounts) == st.nonOwnerTotal
    ensures Sum(Shares(st, amounts)) + OwnerResidual(st) == st.remainingAtStart
  {
    assert Shares(st, amounts) == amounts;
  }
}
