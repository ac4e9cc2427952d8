/** The paged conversion of event records from percentages to prize floors. */
module Migration {
  import opened Numeric
  import opened Sums
  import opened Types
  import opened Escrow
  import World

  /** One entry of the old winner_distribution: a position and its percentage. */
  datatype Percent = Percent(position: U32, percent: U32)

  /** A stored event record: in the old layout, or in the current one. The old layout's
      prizeFloors field is not stored; its distribution is. */
  datatype Row =
    | Legacy(fields: EventRecord, distribution: seq<Percent>)
    | Current(fields: EventRecord)

  datatype Ledger = Ledger(
    rows: map<U64, Row>,
    cursor: Option<U64>,
    nextId: Option<U64>,
    version: Option<nat>,
    migratedTo: Option<nat>,
    base: U64)

  const MAX_PER_CALL := 8

  // ---- one record ------------------------------------------------------------------------

  function FloorAmount(budget: I128, percent: U32): I128 { TruncDiv(SatMul(budget, percent), 100) }

  function FloorsOf(budget: I128, distribution: seq<Percent>): seq<Floor> {
    if distribution == [] then []
    else
      var init, entry := distribution[..|distribution| - 1], distribution[|distribution| - 1];
      var floor := FloorAmount(budget, entry.percent);
      FloorsOf(budget, init) + if floor > 0 then [Floor(entry.position, floor)] else []
  }

  function ConvertRow(row: Row): Row {
    match row
    case Current(_) => row
    case Legacy(fields, distribution) => Current(fields.(prizeFloors := FloorsOf(fields.totalBudget, distribution)))
  }

  function MigrateOne(rows: map<U64, Row>, id: U64): map<U64, Row> {
    if id in rows && rows[id].Legacy? then rows[id := ConvertRow(rows[id])] else rows
  }

  function MigrateRange(rows: map<U64, Row>, from: U64, upto: U64): map<U64, Row>
    requires from <= upto
    decreases upto - from
  {
    if from == upto then rows else MigrateOne(MigrateRange(rows, from, upto - 1), upto - 1)
  }

  // ---- batches and the stamp -------------------------------------------------------------

  function First(m: Ledger): U64 { SatAdd64(m.base, 1) }

  function Next(m: Ledger): U64 { m.nextId.GetOr(First(m)) }

  function Cursor(m: Ledger): U64 { Max(m.cursor.GetOr(First(m)), First(m)) }

  function Remaining(m: Ledger): U64 { SatSub64(Next(m), Cursor(m)) }

  function Budget(maxEvents: U32): U32 {
    if maxEvents == 0 || maxEvents > MAX_PER_CALL then MAX_PER_CALL else maxEvents
  }

  function Batch(m: Ledger, maxEvents: U32): Ledger {
    var from := Cursor(m);
    var upto := if from < Next(m) then Min(Next(m), from + Budget(maxEvents)) else from;
    m.(rows := MigrateRange(m.rows, from, upto), cursor := Some(upto))
  }

  function Stamp(m: Ledger): Result<Ledger> {
    if m.version.None? then Err(NotInitialized) else
    :- Need(m.migratedTo != m.version, MigrationAlreadyApplied);
    :- Need(Remaining(m) == 0, MigrationIncomplete);
    Ok(m.(migratedTo := m.version))
  }

  // ---- what a batch does to the records --------------------------------------------------

  /** A range converts exactly the rows whose ids lie in it. */
  lemma {:induction false} RangeConverts(rows: map<U64, Row>, from: U64, upto: U64)
    requires from <= upto
    ensures MigrateRange(rows, from, upto).Keys == rows.Keys
    ensures forall id :: id in rows ==>
              MigrateRange(rows, from, upto)[id] == (if from <= id < upto then ConvertRow(rows[id]) else rows[id])
    decreases upto - from
  {
    if from < upto {
      RangeConverts(rows, from, upto - 1);
    }
  }

  /** Only rows between the cursor and the next id can still be in the old layout. */
  ghost predicate Inv(m: Ledger) {
    && m.base < U64_MAX && First(m) <= Cursor(m) <= Next(m)
    && forall id :: id in m.rows ==>
         First(m) <= id < Next(m) && (m.rows[id].Legacy? ==> Cursor(m) <= id)
  }

  /** A page moves the cursor on by as many ids as were asked for, by 8 if none or more than
      8 were, or to the end; the ids start one past the base. */
  lemma BatchKeeps(m: Ledger, maxEvents: U32)
    requires Inv(m)
    ensures Inv(Batch(m, maxEvents))
    ensures Cursor(m) <= Cursor(Batch(m, maxEvents)) <= Next(m) == Next(Batch(m, maxEvents))
    ensures var asked := if 1 <= maxEvents <= 8 then maxEvents else 8;
            && Budget(maxEvents) == asked
            && Batch(m, maxEvents).cursor == Some(Min(Cursor(m) + asked, Next(m)))
            && (m.cursor.None? ==> Cursor(m) == m.base + 1)
    ensures Remaining(Batch(m, maxEvents)) == Max(0, Remaining(m) - Budget(maxEvents))
    ensures Remaining(m) > 0 ==> Remaining(Batch(m, maxEvents)) < Remaining(m)
  {
    var from := Cursor(m);
    RangeConverts(m.rows, from, if from < Next(m) then Min(Next(m), from + Budget(maxEvents)) else from);
  }

  /** Two batches in a row convert what one longer range would. */
  lemma {:induction false} RangesJoin(rows: map<U64, Row>, from: U64, mid: U64, upto: U64)
    requires from <= mid <= upto
    ensures MigrateRange(MigrateRange(rows, from, mid), mid, upto) == MigrateRange(rows, from, upto)
    decreases upto - mid
  {
    if mid < upto {
      RangesJoin(rows, from, mid, upto - 1);
    }
  }

  /** The migration is stamped only when no record of the old layout is left. */
  lemma StampedMeansConverted(m: Ledger)
    requires Inv(m) && Stamp(m).Ok?
    ensures forall id :: id in m.rows ==> m.rows[id].Current?
  {
  }

  // ---- runs ------------------------------------------------------------------------------

  datatype Action =
    | MigrateEvents(maxEvents: U32)
    | Migrate
    | Create(ev: EventRecord)
    | Upgrade(version: nat)

  function Act(m: Ledger, a: Action): Ledger {
    match a
    case MigrateEvents(maxEvents) => Batch(m, maxEvents)
    case Migrate => Stamp(m).GetOr(m)
    case Create(ev) =>
      if Next(m) < U64_MAX then m.(rows := m.rows[Next(m) := Current(ev)], nextId := Some(Next(m) + 1)) else m
    case Upgrade(version) => m.(version := Some(version))
  }

  function ActAll(m: Ledger, run: seq<Action>): Ledger {
    if run == [] then m else Act(ActAll(m, run[..|run| - 1]), run[|run| - 1])
  }

  /** A row after any part of the migration: untouched, or converted once. */
  ghost predicate SameOrConverted(row: Row, row': Row) { row' == row || row' == ConvertRow(row) }

  lemma ActKeeps(m: Ledger, a: Action)
    requires Inv(m)
    ensures Inv(Act(m, a))
    ensures Cursor(m) <= Cursor(Act(m, a))
    ensures forall id :: id in m.rows ==> id in Act(m, a).rows && SameOrConverted(m.rows[id], Act(m, a).rows[id])
  {
    match a
    case MigrateEvents(maxEvents) =>
      BatchKeeps(m, maxEvents);
      var from := Cursor(m);
      RangeConverts(m.rows, from, if from < Next(m) then Min(Next(m), from + Budget(maxEvents)) else from);
    case _ =>
  }

  /** The migration is complete and harmless, in any run of batches of any size, attempts to
      stamp, new events and upgrades: the cursor only rises and never passes the next id,
      every record below it is in the current layout, records already current never change,
      and old ones change only into their conversion. */
  lemma {:induction false} MigrationIsHarmless(m: Ledger, run: seq<Action>)
    requires Inv(m)
    ensures Inv(ActAll(m, run))
    ensures Cursor(m) <= Cursor(ActAll(m, run)) <= Next(ActAll(m, run))
    ensures forall id :: id in m.rows ==>
              id in ActAll(m, run).rows && SameOrConverted(m.rows[id], ActAll(m, run).rows[id])
    ensures forall id :: id in ActAll(m, run).rows && id < Cursor(ActAll(m, run)) ==> ActAll(m, run).rows[id].Current?
    decreases |run|
  {
    if run != [] {
      MigrationIsHarmless(m, run[..|run| - 1]);
      ActKeeps(ActAll(m, run[..|run| - 1]), run[|run| - 1]);
    }
  }

  /** Conversion leaves everything but the floors alone, and what is current alone. */
  lemma ConversionKeepsFields(row: Row)
    ensures ConvertRow(row).Current?
    ensures ConvertRow(row).fields == row.fields.(prizeFloors := ConvertRow(row).fields.prizeFloors)
    ensures row.Current? ==> ConvertRow(row) == row
    ensures ConvertRow(ConvertRow(row)) == ConvertRow(row)
  {
  }

  /** Pages of the given sizes, one after the other. */
  function Batches(m: Ledger, sizes: seq<U32>): Ledger {
    if sizes == [] then m else Batch(Batches(m, sizes[..|sizes| - 1]), sizes[|sizes| - 1])
  }

  /** How many records pages of these sizes can convert. */
  function BudgetTotal(sizes: seq<U32>): nat {
    if sizes == [] then 0 else BudgetTotal(sizes[..|sizes| - 1]) + Budget(sizes[|sizes| - 1])
  }

  /** Pages get exactly as far as their budgets; n of them convert at least n records. */
  lemma {:induction false} BatchesFinish(m: Ledger, sizes: seq<U32>)
    requires Inv(m)
    ensures Inv(Batches(m, sizes))
    ensures Remaining(Batches(m, sizes)) == Max(0, Remaining(m) - BudgetTotal(sizes))
    ensures |sizes| <= BudgetTotal(sizes)
    ensures BudgetTotal(sizes) >= Remaining(m) ==>
              forall id :: id in Batches(m, sizes).rows ==> Batches(m, sizes).rows[id].Current?
    decreases |sizes|
  {
    if sizes != [] {
      BatchesFinish(m, sizes[..|sizes| - 1]);
      BatchKeeps(Batches(m, sizes[..|sizes| - 1]), sizes[|sizes| - 1]);
    }
  }

  lemma {:induction false} BatchesKeepVersions(m: Ledger, sizes: seq<U32>)
    ensures Batches(m, sizes).version == m.version && Batches(m, sizes).migratedTo == m.migratedTo
    decreases |sizes|
  {
    if sizes != [] {
      BatchesKeepVersions(m, sizes[..|sizes| - 1]);
    }
  }

  /** After pages of any sizes, nothing having been created since, the stamp of a version
      not yet stamped is accepted exactly when the pages had room for all that remained. */
  lemma StampExactlyWhen(m: Ledger, sizes: seq<U32>)
    requires Inv(m) && m.version.Some? && m.migratedTo != m.version
    ensures Stamp(Batches(m, sizes)).Ok? <==> BudgetTotal(sizes) >= Remaining(m)
  {
    BatchesFinish(m, sizes);
    BatchesKeepVersions(m, sizes);
  }

  /** A ledger as an upgrade finds it: no page run yet, and every id ever issued may hold a
      record of the old layout. */
  ghost predicate AtUpgrade(m: Ledger) {
    && m.base < U64_MAX && m.cursor.None? && First(m) <= Next(m)
    && forall id :: id in m.rows ==> First(m) <= id < Next(m)
  }

  lemma {:induction false} RowsKeptOrConverted(m: Ledger, sizes: seq<U32>)
    requires Inv(m)
    ensures Batches(m, sizes).rows.Keys == m.rows.Keys
    ensures forall id :: id in m.rows ==> SameOrConverted(m.rows[id], Batches(m, sizes).rows[id])
    decreases |sizes|
  {
    if sizes != [] {
      var before, size := Batches(m, sizes[..|sizes| - 1]), sizes[|sizes| - 1];
      RowsKeptOrConverted(m, sizes[..|sizes| - 1]);
      BatchesFinish(m, sizes[..|sizes| - 1]);
      var from := Cursor(before);
      RangeConverts(before.rows, from, if from < Next(before) then Min(Next(before), from + Budget(size)) else from);
    }
  }

  /** A migration from an upgrade, in pages of any sizes that together have room for every
      id issued, converts exactly every record, and can then be stamped. */
  lemma MigrationCompletes(m: Ledger, sizes: seq<U32>)
    requires AtUpgrade(m) && m.version.Some? && m.migratedTo != m.version
    ensures Inv(m) && Remaining(m) == m.nextId.GetOr(m.base + 1) - (m.base + 1)
    ensures Stamp(Batches(m, sizes)).Ok? <==> BudgetTotal(sizes) >= Remaining(m)
    ensures BudgetTotal(sizes) >= Remaining(m) ==>
              Batches(m, sizes).rows.Keys == m.rows.Keys &&
              forall id :: id in m.rows ==> Batches(m, sizes).rows[id] == ConvertRow(m.rows[id])
  {
    StampExactlyWhen(m, sizes);
    BatchesFinish(m, sizes);
    RowsKeptOrConverted(m, sizes);
  }

  // ---- the floors ------------------------------------------------------------------------

  function Percents(distribution: seq<Percent>): (xs: seq<int>)
    ensures |xs| == |distribution|
  {
    seq(|distribution|, i requires 0 <= i < |distribution| => distribution[i].percent)
  }

  function FloorTotal(floors: seq<Floor>): int {
    if floors == [] then 0 else FloorTotal(floors[..|floors| - 1]) + floors[|floors| - 1].amount
  }

  lemma FloorAmountBounds(budget: I128, percent: U32)
    requires budget >= 0
    ensures 0 <= FloorAmount(budget, percent) == Min(budget * percent, I128_MAX) / 100
    ensures 100 * FloorAmount(budget, percent) <= budget * percent
  {
    MulNonNegative(budget, percent);
    QuotientBounds(SatMul(budget, percent), 100);
  }

  lemma FloorTotalAppend(floors: seq<Floor>, floor: Floor)
    ensures FloorTotal(floors + [floor]) == FloorTotal(floors) + floor.amount
  {
    assert (floors + [floor])[..|floors|] == floors;
  }

  lemma ScaledStep(budget: nat, total: int, percents: int, floor: int, percent: int)
    requires 100 * total <= budget * percents && 100 * floor <= budget * percent
    ensures 100 * (total + floor) <= budget * (percents + percent)
  {
    assert budget * (percents + percent) == budget * percents + budget * percent;
  }

  lemma PercentsAppend(init: seq<Percent>, entry: Percent)
    ensures Sum(Percents(init + [entry])) == Sum(Percents(init)) + entry.percent
  {
    assert Percents(init + [entry]) == Percents(init) + [entry.percent];
    SumAppend(Percents(init), entry.percent);
  }

  lemma FloorsExtend(budget: I128, init: seq<Percent>, entry: Percent, floor: I128)
    requires floor == FloorAmount(budget, entry.percent)
    ensures FloorsOf(budget, init + [entry]) ==
            FloorsOf(budget, init) + if floor > 0 then [Floor(entry.position, floor)] else []
  {
    assert (init + [entry])[..|init|] == init;
  }

  lemma FloorsAppend(budget: I128, init: seq<Percent>, entry: Percent, floor: I128)
    requires floor == FloorAmount(budget, entry.percent) >= 0
    ensures FloorTotal(FloorsOf(budget, init + [entry])) == FloorTotal(FloorsOf(budget, init)) + floor
  {
    FloorsExtend(budget, init, entry, floor);
    if floor > 0 {
      FloorTotalAppend(FloorsOf(budget, init), Floor(entry.position, floor));
    } else {
      assert FloorsOf(budget, init) + [] == FloorsOf(budget, init);
    }
  }

  /** A hundred times the floors is at most the budget times the percentages. */
  ghost predicate Scaled(budget: I128, distribution: seq<Percent>) {
    100 * FloorTotal(FloorsOf(budget, distribution)) <= budget * Sum(Percents(distribution))
  }

  lemma ScaledAppend(budget: I128, init: seq<Percent>, entry: Percent)
    requires budget >= 0 && Scaled(budget, init)
    ensures Scaled(budget, init + [entry])
  {
    var total, percents := FloorTotal(FloorsOf(budget, init)), Sum(Percents(init));
    FloorAmountBounds(budget, entry.percent);
    FloorsAppend(budget, init, entry, FloorAmount(budget, entry.percent));
    PercentsAppend(init, entry);
    ScaledStep(budget, total, percents, FloorAmount(budget, entry.percent), entry.percent);
  }

  lemma {:induction false} FloorTotalScaled(budget: I128, distribution: seq<Percent>)
    requires budget >= 0
    ensures Scaled(budget, distribution)
    decreases |distribution|
  {
    if distribution == [] {
      assert Percents(distribution) == [];
    } else {
      var init, entry := distribution[..|distribution| - 1], distribution[|distribution| - 1];
      FloorTotalScaled(budget, init);
      ScaledAppend(budget, init, entry);
      assert distribution == init + [entry];
    }
  }

  lemma FloorIsShare(budget: I128, percent: U32)
    ensures var share := Min(budget * percent, I128_MAX) / 100;
            (FloorAmount(budget, percent) > 0 || share > 0) ==> FloorAmount(budget, percent) == share
  {
    if budget >= 0 {
      FloorAmountBounds(budget, percent);
    } else {
      assert budget * percent <= 0;
    }
  }

  /** The floors are the positive percentage shares of the budget, each at its position. */
  lemma {:induction false} FloorsAreShares(budget: I128, distribution: seq<Percent>, floor: Floor)
    ensures floor in FloorsOf(budget, distribution) <==>
            && floor.amount > 0
            && exists i :: 0 <= i < |distribution| && distribution[i].position == floor.position
                           && Min(budget * distribution[i].percent, I128_MAX) / 100 == floor.amount
    decreases |distribution|
  {
    if distribution != [] {
      var n := |distribution| - 1;
      var init, entry := distribution[..n], distribution[n];
      FloorsAreShares(budget, init, floor);
      FloorIsShare(budget, entry.percent);
      assert forall i :: 0 <= i < n ==> init[i] == distribution[i];
      if entry.position == floor.position && FloorAmount(budget, entry.percent) == floor.amount {
        assert distribution[n].position == floor.position;
      }
    }
  }

  lemma MulAtMost(a: nat, b: int, c: int)
    requires b <= c
    ensures a * b <= a * c
  {
  }

  /** Converted floors total at most the budget when the percentages total at most 100. */
  lemma FloorsWithinBudget(budget: I128, distribution: seq<Percent>)
    requires budget >= 0 && Sum(Percents(distribution)) <= 100
    ensures FloorTotal(FloorsOf(budget, distribution)) <= budget
  {
    FloorTotalScaled(budget, distribution);
    MulAtMost(budget, Sum(Percents(distribution)), 100);
  }

  // ---- the contract's entry points -------------------------------------------------------

  class Migrator {
    var rows: map<U64, Row>
    var cursor: Option<U64>
    var nextId: Option<U64>
    var version: Option<nat>
    var migratedTo: Option<nat>
    const base: U64
    const admin: Address

    constructor (m: Ledger, admin: Address)
      ensures View() == m && this.admin == admin
    {
      rows, cursor, nextId, version, migratedTo := m.rows, m.cursor, m.nextId, m.version, m.migratedTo;
      base := m.base;
      this.admin := admin;
    }

    ghost function View(): Ledger
      reads this
    {
      Ledger(rows, cursor, nextId, version, migratedTo, base)
    }

    method MigrateOneEvent(id: U64)
      modifies this`rows
      ensures rows == MigrateOne(old(rows), id)
    {
      if id in rows && rows[id].Legacy? {
        var record := rows[id].fields;
        var distribution := rows[id].distribution;
        var floors: seq<Floor> := [];
        for i := 0 to |distribution|
          invariant floors == FloorsOf(record.totalBudget, distribution[..i])
        {
          assert distribution[..i + 1][..i] == distribution[..i];
          var floor := TruncDiv(SatMul(record.totalBudget, distribution[i].percent), 100);
          if floor > 0 {
            floors := floors + [Floor(distribution[i].position, floor)];
          }
        }
        assert distribution[..|distribution|] == distribution;
        rows := rows[id := Current(record.(prizeFloors := floors))];
      }
    }

    /** Converts up to a page of events and reports how many are left. */
    method MigrateEvents(env: Env, maxEvents: U32) returns (r: Result<U64>)
      modifies this
      ensures r.Ok? <==> admin in env.auths && admin != SELF
      ensures r.Err? ==> r == Err(Unauthorized) && View() == old(View())
      ensures r.Ok? ==> View() == Batch(old(View()), maxEvents) && r.value == Remaining(View())
    {
      var auth := World.RequireAuth(env, admin);
      if auth.Fail? {
        return Err(auth.error);
      }
      var budget := if maxEvents == 0 || maxEvents > MAX_PER_CALL then MAX_PER_CALL else maxEvents;
      var first := SatAdd64(base, 1);
      var next := nextId.GetOr(first);
      var at: U64 := Max(cursor.GetOr(first), first);
      var done := 0;
      while at < next && done < budget
        invariant 0 <= done <= budget
        invariant at == Cursor(old(View())) + done
        invariant at <= Max(next, Cursor(old(View())))
        invariant View() == old(View()).(rows := MigrateRange(old(rows), Cursor(old(View())), at))
      {
        MigrateOneEvent(at);
        at := SatAdd64(at, 1);
        done := done + 1;
      }
      cursor := Some(at);
      return Ok(SatSub64(next, at));
    }

    /** Stamps the migration done. */
    method Migrate(env: Env) returns (r: Result<()>)
      modifies this`migratedTo
      ensures r.Ok? <==> admin in env.auths && admin != SELF && Stamp(old(View())).Ok?
      ensures r.Ok? ==> Ok(View()) == Stamp(old(View()))
      ensures r.Err? ==> View() == old(View())
    {
      var auth := World.RequireAuth(env, admin);
      if auth.Fail? {
        return Err(auth.error);
      }
      if version.None? {
        return Err(NotInitialized);
      }
      if migratedTo.Some? && migratedTo.value == version.value {
        return Err(MigrationAlreadyApplied);
      }
      var first := SatAdd64(base, 1);
      var next := nextId.GetOr(first);
      var at := Max(cursor.GetOr(first), first);
      if next - at > 0 {
        return Err(MigrationIncomplete);
      }
      migratedTo := version;
      return Ok(());
    }
  }
}
