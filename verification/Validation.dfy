/** The loops with which the entry points check and total their arguments. */
module Validation {
  import opened Numeric
  import opened Sums
  import opened Types
  import opened Milestones
  import opened Books
  import opened Invariants
  import opened Preservation

  lemma {:induction false} PrefixAtMost(shares: seq<U32>, i: nat)
    requires i <= |shares|
    ensures 0 <= Sum(shares[..i]) <= Sum(shares)
  {
    assert shares == shares[..i] + shares[i..];
    SumConcat(shares[..i], shares[i..]);
    SumNonNegative(shares[..i]);
    SumNonNegative(shares[i..]);
  }

  lemma PrefixStep(shares: seq<U32>, i: nat)
    requires i < |shares|
    ensures Sum(shares[..i + 1]) == Sum(shares[..i]) + shares[i]
  {
    assert shares[..i + 1] == shares[..i] + [shares[i]];
    SumAppend(shares[..i], shares[i]);
  }

  /** A split is accepted exactly when it has between 1 and 20 positive shares that total
      10,000 basis points; running past a u32 on the way is a refusal, never a wrap. */
  method SplitIsValid(shares: seq<U32>) returns (ok: bool)
    ensures ok <==> ValidSplit(shares)
  {
    if shares == [] || |shares| > MAX_SPLIT_MILESTONES {
      return false;
    }
    var total: U32 := 0;
    for i := 0 to |shares|
      invariant total == Sum(shares[..i])
      invariant forall j :: 0 <= j < i ==> shares[j] > 0
    {
      if shares[i] == 0 {
        return false;
      }
      PrefixStep(shares, i);
      if total + shares[i] > U32_MAX {
        PrefixAtMost(shares, i + 1);
        return false;
      }
      total := total + shares[i];
    }
    assert shares[..|shares|] == shares;
    return total == SPLIT_BPS_TOTAL;
  }

  /** The total of the prize floors, or the first reason to refuse them. */
  method TotalFloors(floors: seq<Floor>) returns (r: Result<I128>)
    ensures r == FloorSum(floors, 0)
  {
    var sum: I128 := 0;
    for i := 0 to |floors|
      invariant FloorSum(floors, 0) == FloorSum(floors[i..], sum)
    {
      assert floors[i..][1..] == floors[i + 1..];
      if floors[i].amount <= 0 {
        return Err(InvalidDistribution);
      }
      if sum + floors[i].amount > I128_MAX {
        return Err(DistributionMismatch);
      }
      sum := sum + floors[i].amount;
    }
    return Ok(sum);
  }

  function FloorAmounts(floors: seq<Floor>): (xs: seq<int>)
    ensures |xs| == |floors|
  {
    seq(|floors|, i requires 0 <= i < |floors| => floors[i].amount)
  }

  /** Floors are accepted exactly when each is positive and their sum fits, and total that sum. */
  lemma {:induction false} FloorsAcceptedExactlyWhen(floors: seq<Floor>, acc: I128)
    requires acc >= 0
    ensures FloorSum(floors, acc).Ok? <==>
              && (forall i :: 0 <= i < |floors| ==> floors[i].amount > 0)
              && acc + Sum(FloorAmounts(floors)) <= I128_MAX
    ensures FloorSum(floors, acc).Ok? ==> FloorSum(floors, acc).value == acc + Sum(FloorAmounts(floors))
    decreases |floors|
  {
    if floors != [] {
      var tail := floors[1..];
      assert FloorAmounts(floors)[1..] == FloorAmounts(tail);
      assert forall i :: 0 < i < |floors| ==> floors[i] == tail[i - 1];
      if floors[0].amount > 0 && acc + floors[0].amount <= I128_MAX {
        FloorsAcceptedExactlyWhen(tail, acc + floors[0].amount);
      } else if forall i :: 0 <= i < |floors| ==> floors[i].amount > 0 {
        SumNonNegative(FloorAmounts(tail));
      }
    }
  }

  /** Whether no two specs of a batch name the same position. */
  method PositionsAreDistinct(specs: seq<WinnerSpec>) returns (ok: bool)
    ensures ok <==> DistinctPositions(specs)
  {
    var seen: seq<U32> := [];
    for i := 0 to |specs|
      invariant |seen| == i && forall j :: 0 <= j < i ==> seen[j] == specs[j].position
      invariant DistinctPositions(specs[..i])
    {
      var already := false;
      for j := 0 to |seen|
        invariant already <==> exists k :: 0 <= k < j && seen[k] == specs[i].position
      {
        if seen[j] == specs[i].position {
          already := true;
          break;
        }
      }
      if already {
        return false;
      }
      seen := seen + [specs[i].position];
    }
    return true;
  }

  method BumpsAreSmall(specs: seq<WinnerSpec>) returns (ok: bool)
    ensures ok <==> forall i :: 0 <= i < |specs| ==> specs[i].reputationBump <= MAX_REPUTATION_BUMP
  {
    for i := 0 to |specs|
      invariant forall j :: 0 <= j < i ==> specs[j].reputationBump <= MAX_REPUTATION_BUMP
    {
      if specs[i].reputationBump > MAX_REPUTATION_BUMP {
        return false;
      }
    }
    return true;
  }

  // ---- select_winners, single release ----------------------------------------------------

  /** A batch is accepted exactly when its positions were never awarded, its amounts are
      positive and at or above the first floor listed for each, and their sum fits. */
  lemma {:induction false} PrizesAcceptedExactlyWhen(b: Book, specs: seq<WinnerSpec>, acc: I128)
    requires acc >= 0
    ensures ValidatePrizes(b, specs, acc).Ok? <==>
              Awardable(b.ev.prizeFloors, b.prizes.awards, specs) && acc + Sum(SpecAmounts(specs)) <= I128_MAX
    ensures ValidatePrizes(b, specs, acc).Ok? ==>
              ValidatePrizes(b, specs, acc).value == acc + Sum(SpecAmounts(specs))
    decreases |specs|
  {
    if specs != [] {
      var tail := specs[1..];
      PassesExactlyWhen(b.ev.prizeFloors, specs[0].position, specs[0].amount);
      assert SpecAmounts(specs)[1..] == SpecAmounts(tail);
      assert forall i :: 0 < i < |specs| ==> specs[i] == tail[i - 1];
      assert Awardable(b.ev.prizeFloors, b.prizes.awards, specs) ==> Awardable(b.ev.prizeFloors, b.prizes.awards, tail);
      if specs[0].amount > 0 && acc + specs[0].amount <= I128_MAX {
        PrizesAcceptedExactlyWhen(b, tail, acc + specs[0].amount);
      } else if Awardable(b.ev.prizeFloors, b.prizes.awards, specs) {
        SumNonNegative(SpecAmounts(tail));
      }
    }
  }

  /** The total of a single-release batch, or the first reason to refuse it. */
  method TotalPrizes(b: Book, specs: seq<WinnerSpec>) returns (r: Result<I128>)
    ensures r == ValidatePrizes(b, specs, 0)
    ensures r.Ok? <==> Awardable(b.ev.prizeFloors, b.prizes.awards, specs) && Sum(SpecAmounts(specs)) <= I128_MAX
    ensures r.Ok? ==> r.value == Sum(SpecAmounts(specs))
  {
    PrizesAcceptedExactlyWhen(b, specs, 0);
    var total: I128 := 0;
    for i := 0 to |specs|
      invariant ValidatePrizes(b, specs, 0) == ValidatePrizes(b, specs[i..], total)
    {
      var spec := specs[i];
      assert specs[i..][1..] == specs[i + 1..];
      if spec.position in b.prizes.awards {
        return Err(DuplicateWinnerPosition);
      }
      if spec.amount <= 0 {
        return Err(InvalidDistribution);
      }
      var floor := FloorFor(b.ev.prizeFloors, spec.position);
      if floor.Some? && spec.amount < floor.value {
        return Err(InvalidDistribution);
      }
      if total + spec.amount > I128_MAX {
        return Err(InsufficientEscrow);
      }
      total := total + spec.amount;
    }
    return Ok(total);
  }

  /** The winner rows a selection asks for, unpaid. */
  ghost function RowsFor(specs: seq<WinnerSpec>): (rows: seq<Winner>)
    ensures |rows| == |specs|
  {
    seq(|specs|, i requires 0 <= i < |specs| =>
          Winner(specs[i].recipient, specs[i].position, specs[i].amount, None, None))
  }

  lemma {:induction false} AppendedRows(rows: seq<Winner>, specs: seq<WinnerSpec>)
    requires |rows| + |specs| <= U32_MAX + 1
    ensures AppendAwards(rows, specs) == rows + RowsFor(specs)
    decreases |specs|
  {
    if specs != [] {
      AppendedRows(rows + [AwardRow(specs[0])], specs[1..]);
      assert RowsFor(specs) == [AwardRow(specs[0])] + RowsFor(specs[1..]);
    }
  }

  /** The awards of a batch are what its specs ask for, each at the row written for it, and
      every award made before is as it was. */
  ghost predicate AwardsFor(awards: map<U32, PrizeAward>, specs: seq<WinnerSpec>, anchor: nat,
                            awards': map<U32, PrizeAward>)
  {
    && |specs| + anchor <= U32_MAX + 1
    && (forall i :: 0 <= i < |specs| ==>
          && specs[i].position in awards'
          && awards'[specs[i].position] == PrizeAward(specs[i].recipient, anchor + i, specs[i].reputationBump))
    && (forall p :: p in awards' ==> p in awards || exists i :: 0 <= i < |specs| && specs[i].position == p)
    && (forall p :: p in awards && (forall i :: 0 <= i < |specs| ==> specs[i].position != p) ==>
          p in awards' && awards'[p] == awards[p])
  }

  lemma AwardsForMore(awards: map<U32, PrizeAward>, specs: seq<WinnerSpec>, anchor: nat, awards': map<U32, PrizeAward>)
    requires specs != [] && DistinctPositions(specs) && anchor <= U32_MAX
    requires var award := PrizeAward(specs[0].recipient, anchor, specs[0].reputationBump);
             AwardsFor(awards[specs[0].position := award], specs[1..], anchor + 1, awards')
    ensures AwardsFor(awards, specs, anchor, awards')
  {
    var tail := specs[1..];
    assert forall i :: 0 < i < |specs| ==> specs[i] == tail[i - 1];
    assert forall i :: 0 <= i < |tail| ==> tail[i].position != specs[0].position;
    forall p | p in awards'
      ensures p in awards || exists i :: 0 <= i < |specs| && specs[i].position == p
    {
      if p !in awards && p != specs[0].position {
        var i :| 0 <= i < |tail| && tail[i].position == p;
        assert specs[i + 1].position == p;
      }
    }
  }

  /** The book once the first spec of a batch is placed. */
  ghost function PlacedOne(b: Book, spec: WinnerSpec, anchor: U32): Book {
    b.(rows := AppendWinner(b.rows, AwardRow(spec)),
       prizes := b.prizes.(awards := b.prizes.awards[spec.position :=
         PrizeAward(spec.recipient, anchor, spec.reputationBump)]))
  }

  /** Placing a batch writes exactly its rows. */
  lemma {:induction false} PlacedRows(b: Book, specs: seq<WinnerSpec>, anchor: nat)
    requires |b.rows| + |specs| <= U32_MAX + 1 && PlacePrizes(b, specs, anchor).Ok?
    ensures PlacePrizes(b, specs, anchor).value.rows == b.rows + RowsFor(specs)
    decreases |specs|
  {
    if specs != [] {
      PlacedRows(PlacedOne(b, specs[0], anchor), specs[1..], anchor + 1);
      assert RowsFor(specs) == [AwardRow(specs[0])] + RowsFor(specs[1..]);
    }
  }

  lemma TailPositions(specs: seq<WinnerSpec>)
    requires specs != [] && DistinctPositions(specs)
    ensures DistinctPositions(specs[1..])
  {
    assert forall i :: 0 <= i < |specs[1..]| ==> specs[1..][i] == specs[i + 1];
  }

  /** Placing a batch writes exactly its awards. */
  lemma {:induction false} PlacedAwards(b: Book, specs: seq<WinnerSpec>, anchor: nat)
    requires DistinctPositions(specs) && anchor + |specs| <= U32_MAX + 1 && PlacePrizes(b, specs, anchor).Ok?
    ensures AwardsFor(b.prizes.awards, specs, anchor, PlacePrizes(b, specs, anchor).value.prizes.awards)
    decreases |specs|
  {
    if specs != [] {
      TailPositions(specs);
      PlacedAwards(PlacedOne(b, specs[0], anchor), specs[1..], anchor + 1);
      AwardsForMore(b.prizes.awards, specs, anchor, PlacePrizes(b, specs, anchor).value.prizes.awards);
    }
  }

  /** Writes a batch's winner rows and prize awards, or refuses a row past a u32 index. */
  method WritePrizes(b: Book, specs: seq<WinnerSpec>) returns (r: Result<Book>)
    ensures r == PlacePrizes(b, specs, WinnerCount(b.rows))
    ensures r.Ok? && DistinctPositions(specs) && |b.rows| + |specs| <= U32_MAX + 1 ==>
              && r.value.rows == b.rows + RowsFor(specs)
              && (specs != [] ==> AwardsFor(b.prizes.awards, specs, |b.rows|, r.value.prizes.awards))
  {
    if DistinctPositions(specs) && specs != [] && |b.rows| + |specs| <= U32_MAX + 1 {
      PlacedWithinIndex(b, specs, |b.rows|);
      PlacedRows(b, specs, |b.rows|);
      PlacedAwards(b, specs, |b.rows|);
    }
    var existing := WinnerCount(b.rows);
    var rows, awards: map<U32, PrizeAward> := b.rows, b.prizes.awards;
    for i := 0 to |specs|
      invariant PlacePrizes(b, specs, existing) ==
                PlacePrizes(b.(rows := rows, prizes := b.prizes.(awards := awards)), specs[i..], existing + i)
    {
      var spec := specs[i];
      assert specs[i..][1..] == specs[i + 1..];
      if existing + i > U32_MAX {
        return Err(InvalidWinnerPosition);
      }
      rows := AppendWinner(rows, Winner(spec.recipient, spec.position, spec.amount, None, None));
      awards := awards[spec.position := PrizeAward(spec.recipient, existing + i, spec.reputationBump)];
    }
    return Ok(b.(rows := rows, prizes := b.prizes.(awards := awards)));
  }

  // ---- select_winners, grants ------------------------------------------------------------

  /** Every milestone of every award pays, at or above its floor, and nobody is named twice. */
  ghost predicate Grantable(ev: EventRecord, roster: map<Address, GrantAward>, specs: seq<WinnerSpec>) {
    && (forall i :: 0 <= i < |specs| ==>
          && EveryMilestonePays(ev.releaseKind, specs[i].amount) && specs[i].recipient !in roster
          && MeetsFloor(ev.prizeFloors, specs[i].position, specs[i].amount))
    && (forall i, j :: 0 <= i < j < |specs| ==> specs[i].recipient != specs[j].recipient)
  }

  lemma GrantableTail(ev: EventRecord, roster: map<Address, GrantAward>, specs: seq<WinnerSpec>)
    requires specs != []
    ensures var roster' := roster[specs[0].recipient := GrantAward(specs[0].position, specs[0].amount)];
            Grantable(ev, roster, specs) <==>
              && EveryMilestonePays(ev.releaseKind, specs[0].amount) && specs[0].recipient !in roster
              && MeetsFloor(ev.prizeFloors, specs[0].position, specs[0].amount)
              && Grantable(ev, roster', specs[1..])
  {
    var tail := specs[1..];
    var roster' := roster[specs[0].recipient := GrantAward(specs[0].position, specs[0].amount)];
    assert forall i :: 0 < i < |specs| ==> specs[i] == tail[i - 1];
    if Grantable(ev, roster', tail) {
      assert forall i :: 0 <= i < |tail| ==> tail[i].recipient !in roster';
    }
  }

  lemma PayingAwardIsPositive(kind: ReleaseKind, award: I128)
    requires GrantKind(kind) && EveryMilestonePays(kind, award)
    ensures award > 0
  {
    FloorsProperty(kind, award);
  }

  lemma AwardsNonNegative(ev: EventRecord, roster: map<Address, GrantAward>, specs: seq<WinnerSpec>)
    requires GrantKind(ev.releaseKind) && Grantable(ev, roster, specs)
    ensures Sum(SpecAmounts(specs)) >= 0
  {
    forall i | 0 <= i < |specs|
      ensures SpecAmounts(specs)[i] >= 0
    {
      PayingAwardIsPositive(ev.releaseKind, specs[i].amount);
    }
    SumNonNegative(SpecAmounts(specs));
  }

  lemma {:induction false} GrantsAcceptedExactlyWhen(ev: EventRecord, specs: seq<WinnerSpec>,
                                                     roster: map<Address, GrantAward>, acc: I128)
    requires GrantKind(ev.releaseKind) && acc >= 0
    ensures ValidateGrants(ev, specs, roster, acc).Ok? <==>
              Grantable(ev, roster, specs) && acc + Sum(SpecAmounts(specs)) <= I128_MAX
    ensures ValidateGrants(ev, specs, roster, acc).Ok? ==>
              ValidateGrants(ev, specs, roster, acc).value.1 == acc + Sum(SpecAmounts(specs))
    decreases |specs|
  {
    if specs != [] {
      var tail := specs[1..];
      var roster' := roster[specs[0].recipient := GrantAward(specs[0].position, specs[0].amount)];
      PassesExactlyWhen(ev.prizeFloors, specs[0].position, specs[0].amount);
      assert SpecAmounts(specs)[1..] == SpecAmounts(tail);
      GrantableTail(ev, roster, specs);
      if EveryMilestonePays(ev.releaseKind, specs[0].amount) {
        PayingAwardIsPositive(ev.releaseKind, specs[0].amount);
        if acc + specs[0].amount <= I128_MAX {
          GrantsAcceptedExactlyWhen(ev, tail, roster', acc + specs[0].amount);
        } else if Grantable(ev, roster', tail) {
          AwardsNonNegative(ev, roster', tail);
        }
      }
    }
  }

  /** A roster adds to another exactly the awards a selection asks for. */
  ghost predicate RosterFor(roster: map<Address, GrantAward>, specs: seq<WinnerSpec>,
                            roster': map<Address, GrantAward>)
  {
    && (forall i :: 0 <= i < |specs| ==>
          && specs[i].recipient in roster'
          && roster'[specs[i].recipient] == GrantAward(specs[i].position, specs[i].amount))
    && (forall a :: a in roster' ==> a in roster || exists i :: 0 <= i < |specs| && specs[i].recipient == a)
    && (forall a :: a in roster ==> a in roster' && roster'[a] == roster[a])
  }

  lemma RosterForMore(roster: map<Address, GrantAward>, specs: seq<WinnerSpec>, roster': map<Address, GrantAward>)
    requires specs != [] && specs[0].recipient !in roster
    requires var entered := roster[specs[0].recipient := GrantAward(specs[0].position, specs[0].amount)];
             RosterFor(entered, specs[1..], roster')
    ensures RosterFor(roster, specs, roster')
  {
    var tail := specs[1..];
    assert forall i :: 0 < i < |specs| ==> specs[i] == tail[i - 1];
    forall a | a in roster'
      ensures a in roster || exists i :: 0 <= i < |specs| && specs[i].recipient == a
    {
      if a !in roster && a != specs[0].recipient {
        var i :| 0 <= i < |tail| && tail[i].recipient == a;
        assert specs[i + 1].recipient == a;
      }
    }
  }

  /** An accepted grant selection writes exactly its awards into the roster. */
  lemma {:induction false} RosterIsSpecs(ev: EventRecord, specs: seq<WinnerSpec>, roster: map<Address, GrantAward>,
                                         acc: I128)
    requires ValidateGrants(ev, specs, roster, acc).Ok?
    ensures RosterFor(roster, specs, ValidateGrants(ev, specs, roster, acc).value.0)
    decreases |specs|
  {
    if specs != [] {
      var entered := roster[specs[0].recipient := GrantAward(specs[0].position, specs[0].amount)];
      RosterIsSpecs(ev, specs[1..], entered, acc + specs[0].amount);
      RosterForMore(roster, specs, ValidateGrants(ev, specs, roster, acc).value.0);
    }
  }

  /** The roster and total of a grant selection, or the first reason to refuse it. */
  method TotalGrants(ev: EventRecord, specs: seq<WinnerSpec>) returns (r: Result<(map<Address, GrantAward>, I128)>)
    ensures r == ValidateGrants(ev, specs, map[], 0)
    ensures GrantKind(ev.releaseKind) ==>
              (r.Ok? <==> Grantable(ev, map[], specs) && Sum(SpecAmounts(specs)) <= I128_MAX)
    ensures r.Ok? ==> RosterFor(map[], specs, r.value.0)
  {
    if GrantKind(ev.releaseKind) {
      GrantsAcceptedExactlyWhen(ev, specs, map[], 0);
    }
    if ValidateGrants(ev, specs, map[], 0).Ok? {
      RosterIsSpecs(ev, specs, map[], 0);
    }
    var total: I128 := 0;
    var roster: map<Address, GrantAward> := map[];
    for i := 0 to |specs|
      invariant ValidateGrants(ev, specs, map[], 0) == ValidateGrants(ev, specs[i..], roster, total)
    {
      var spec := specs[i];
      assert specs[i..][1..] == specs[i + 1..];
      if !EveryMilestonePays(ev.releaseKind, spec.amount) {
        return Err(InvalidDistribution);
      }
      if spec.recipient in roster {
        return Err(DuplicateRecipient);
      }
      roster := roster[spec.recipient := GrantAward(spec.position, spec.amount)];
      var floor := FloorFor(ev.prizeFloors, spec.position);
      if floor.Some? && spec.amount < floor.value {
        return Err(InvalidDistribution);
      }
      if !(I128_MIN <= total + spec.amount <= I128_MAX) {
        return Err(InsufficientEscrow);
      }
      total := total + spec.amount;
    }
    return Ok((roster, total));
  }

  method WriteAwards(rows: seq<Winner>, specs: seq<WinnerSpec>) returns (rows': seq<Winner>)
    ensures rows' == AppendAwards(rows, specs)
    ensures |rows| + |specs| <= U32_MAX + 1 ==> rows' == rows + RowsFor(specs)
  {
    if |rows| + |specs| <= U32_MAX + 1 {
      AppendedRows(rows, specs);
    }
    rows' := rows;
    for i := 0 to |specs|
      invariant AppendAwards(rows, specs) == AppendAwards(rows', specs[i..])
    {
      assert specs[i..][1..] == specs[i + 1..];
      rows' := AppendWinner(rows', Winner(specs[i].recipient, specs[i].position, specs[i].amount, None, None));
    }
  }
}
