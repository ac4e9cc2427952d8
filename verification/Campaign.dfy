/** How a crowdfunding campaign's escrow is paid out over its milestones. */
module Campaign {
  import opened Numeric
  import opened Sums

  /** One release out of `escrow` while `open` milestones are unclaimed. */
  function CampaignShare(escrow: I128, open: U32): I128
    requires open > 0
  {
    if open == 1 then escrow else TruncDiv(escrow, open)
  }

  /** The releases that follow when no deposit comes in between. */
  function Releases(escrow: I128, open: U32): (xs: seq<I128>)
    requires escrow >= 0
    ensures |xs| == open
    decreases open
  {
    if open == 0 then [] else [CampaignShare(escrow, open)] + Releases(escrow - CampaignShare(escrow, open), open - 1)
  }

  lemma Multiples(q: int, k: int)
    ensures q * (k - 1) == q * k - q
    ensures (q + 1) * k == q * k + k
  {
  }

  lemma {:induction false} ReleasesFrom(escrow: I128, open: U32, q: nat, r: nat)
    requires open > 0 && escrow == q * open + r && r <= open
    ensures forall i :: 0 <= i < open ==> Releases(escrow, open)[i] == if i < open - r then q else q + 1
    decreases open
  {
    FirstRelease(escrow, open, q, r);
    if open == 1 {
      assert Releases(escrow, open) == [escrow];
    } else {
      var share := CampaignShare(escrow, open);
      ReleasesFrom(escrow - share, open - 1, q, if r < open then r else r - 1);
    }
  }

  lemma FirstRelease(escrow: I128, open: U32, q: nat, r: nat)
    requires open > 0 && escrow == q * open + r && r <= open
    ensures CampaignShare(escrow, open) == if r < open then q else q + 1
    ensures escrow - CampaignShare(escrow, open) == q * (open - 1) + if r < open then r else r - 1
  {
    Multiples(q, open);
    if r < open {
      QuotientIs(escrow, open, q);
    } else {
      QuotientIs(escrow, open, q + 1);
    }
  }

  lemma {:induction false} StepSum(k: nat, r: nat, q: int, xs: seq<int>)
    requires r <= k && |xs| == k
    requires forall i :: 0 <= i < k ==> xs[i] == if i < k - r then q else q + 1
    ensures Sum(xs) == q * k + r
  {
    if k > 0 {
      Multiples(q, k);
      StepSum(k - 1, if r == k then 0 else r, if r == k then q + 1 else q, xs[1..]);
      Multiples(q + 1, k);
    }
  }

  /** Sequential floor division is near-equal: the first releases pay the floored average,
      the last escrow % open of them one unit more, and together they pay the escrow. */
  lemma ReleasesAreNearEqual(escrow: I128, open: U32)
    requires open > 0 && escrow >= 0
    ensures var q := escrow / open; var r := escrow % open;
            forall i :: 0 <= i < open ==> Releases(escrow, open)[i] == if i < open - r then q else q + 1
    ensures Sum(Releases(escrow, open)) == escrow
  {
    var q, r := escrow / open, escrow % open;
    QuotientBounds(escrow, open);
    assert escrow == q * open + r;
    ReleasesFrom(escrow, open, q, r);
    StepSum(open, r, q, Releases(escrow, open));
  }

  /** A release pays something exactly when the escrow has a unit per open milestone. */
  lemma ReleasePaysExactlyWhen(escrow: I128, open: U32)
    requires open > 0 && escrow >= 0
    ensures CampaignShare(escrow, open) > 0 <==> escrow >= open
    ensures 0 <= CampaignShare(escrow, open) <= escrow
    ensures open > 1 && escrow > 0 ==> CampaignShare(escrow, open) < escrow
    ensures escrow >= open ==> escrow - CampaignShare(escrow, open) >= open - 1
  {
    var q := escrow / open;
    QuotientBounds(escrow, open);
    if q <= 0 {
      MulMonotone(q, 0, open);
    } else {
      MulMonotone(1, q, open);
      Multiples(q, open);
      if open > 1 {
        MulMonotone(1, open - 1, q);
        MulMonotone(1, q, open - 1);
      }
    }
  }
}
