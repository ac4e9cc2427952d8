/** The paged refund crank against a single pass over the contributor list. */
module Paging {
  import opened Numeric
  import opened Types
  import opened Escrow
  import opened Refunds
  import opened Books
  import opened Audit
  import opened Invariants
  import opened Steps
  import opened Preservation
  import opened Backing
  import opened Histories
  import W = World

  /** A cancellation that has not refunded anyone yet. */
  ghost predicate JustBegun(b: Book) {
    BookInv(b) && b.ev.status.Cancelling? && b.cancel.value.nextIdx == 0 && b.held == map[]
  }

  lemma StartCancelBegins(b: Book)
    requires BookInv(b) && StartCancelOk(b) && StartCancelStep(b).ev.status.Cancelling?
    ensures JustBegun(StartCancelStep(b))
    ensures StartCancelStep(b).roll == b.roll
  {
    StartCancelKeeps(b);
  }

  /** What a single pass over the list would refund its i-th contributor: all of what was
      put in if the escrow covers everyone, or else its floored share of the escrow. */
  ghost function OneShot(b0: Book, i: nat): int
    requires JustBegun(b0) && i < |b0.roll.list|
  {
    var put, st := AmountOf(b0.roll, b0.roll.list[i]), b0.cancel.value;
    if st.remainingAtStart >= st.nonOwnerTotal then put
    else Min(put * st.remainingAtStart, I128_MAX) / st.nonOwnerTotal
  }

  /** How many contributors the crank has handled. */
  function Cranked(b: Book): nat { if b.cancel.Some? then b.cancel.value.nextIdx else |b.roll.list| }

  /** What an account has got as refund, in hand or held for it. */
  function RefundOf(b: Book, a: Address): int { RefundedTo(b.moves, a) + HeldOf(b.held, a) }

  /** The first Cranked(b) contributors got exactly their one-shot refund, the others nothing yet. */
  ghost predicate FollowsOneShot(b0: Book, b: Book)
    requires JustBegun(b0)
  {
    && b.roll.list == b0.roll.list
    && (b.ev.status.Cancelling? || b.ev.status.Cancelled?)
    && (b.ev.status.Cancelling? ==> b.cancel == Some(b0.cancel.value.(nextIdx := Cranked(b))))
    && forall i :: 0 <= i < |b0.roll.list| ==> SlotFollows(b0, b, i)
  }

  ghost predicate SlotFollows(b0: Book, b: Book, i: nat)
    requires JustBegun(b0) && i < |b0.roll.list|
  {
    var a := b0.roll.list[i];
    && RefundOf(b, a) == (if i < Cranked(b) then OneShot(b0, i) else 0)
    && (i >= Cranked(b) ==> AmountOf(b.roll, a) == AmountOf(b0.roll, a))
  }

  lemma BegunFollows(b0: Book)
    requires JustBegun(b0)
    ensures FollowsOneShot(b0, b0)
  {
    forall i | 0 <= i < |b0.roll.list|
      ensures SlotFollows(b0, b0, i)
    {
      assert Unrefunded(b0, b0.roll.list[i]);
    }
  }

  /** The slot being handled gets its share; every other account is left as it was. */
  lemma SlotPays(b: Book, accepted: bool, c: Address, payout: I128, a: Address)
    requires MoreSlots(b) && payout >= 0 && c !in b.held
    ensures var b' := CrankedTo(b, accepted, c, payout);
            && RefundOf(b', a) == RefundOf(b, a) + (if a == c then payout else 0)
            && AmountOf(b'.roll, a) == (if a == c then 0 else AmountOf(b.roll, a))
            && Cranked(b') == Cranked(b) + 1
  {
    CrankedFlows(b, accepted, c, payout);
  }

  lemma SlotFollowsAt(b0: Book, b: Book, b': Book, payout: int, i: nat)
    requires JustBegun(b0) && FollowsOneShot(b0, b) && i < |b0.roll.list|
    requires Cranked(b) < |b0.roll.list| && Cranked(b') == Cranked(b) + 1
    requires var a := b0.roll.list[i];
             && RefundOf(b', a) == RefundOf(b, a) + (if i == Cranked(b) then payout else 0)
             && (i != Cranked(b) ==> AmountOf(b'.roll, a) == AmountOf(b.roll, a))
    requires payout == OneShot(b0, Cranked(b))
    ensures SlotFollows(b0, b', i)
  {
    assert SlotFollows(b0, b, i);
  }

  lemma SlotShare(b0: Book, b: Book)
    requires JustBegun(b0) && FollowsOneShot(b0, b) && b.ev.status.Cancelling? && MoneyInv(b) && MoreSlots(b)
    ensures Cranked(b) < |b0.roll.list|
    ensures RefundShare(b.cancel.value, AmountOf(b.roll, b.roll.list[Cranked(b)])) == OneShot(b0, Cranked(b))
  {
    assert SlotFollows(b0, b, Cranked(b));
    ShareBounds(b0.cancel.value, AmountOf(b.roll, b.roll.list[Cranked(b)]));
  }

  lemma OtherSlot(r: Roll, owner: Address, i: nat, j: nat)
    requires RollInv(r, owner) && i < |r.list| && j < |r.list|
    ensures r.list[i] == r.list[j] <==> i == j
  {
    assert r.slot[r.list[i]] == i + 1 && r.slot[r.list[j]] == j + 1;
  }

  /** One slot of the crank, whatever the token answers, hands that slot its one-shot refund. */
  lemma SlotFollowsOneShot(b0: Book, b: Book, accepted: bool)
    requires JustBegun(b0) && FollowsOneShot(b0, b)
    requires BookInv(b) && b.ev.status.Cancelling? && MoreSlots(b)
    ensures FollowsOneShot(b0, CrankSlot(b, accepted))
  {
    var c, payout := NextSlotExists(b);
    CrankedBook(b, accepted, c, payout);
    SlotShare(b0, b);
    var b' := CrankedTo(b, accepted, c, payout);
    forall i | 0 <= i < |b0.roll.list|
      ensures SlotFollows(b0, b', i)
    {
      OtherSlot(b.roll, b.ev.owner, i, Cranked(b));
      SlotPays(b, accepted, c, payout, b0.roll.list[i]);
      SlotFollowsAt(b0, b, b', payout, i);
    }
  }

  lemma {:induction false} CrankFollows(b0: Book, b: Book, accepted: seq<bool>)
    requires JustBegun(b0) && FollowsOneShot(b0, b) && BookInv(b) && b.ev.status.Cancelling?
    ensures FollowsOneShot(b0, CrankAll(b, accepted))
    decreases |accepted|
  {
    if accepted != [] && MoreSlots(b) {
      SlotFollowsOneShot(b0, b, accepted[0]);
      CrankSlotKeeps(b, accepted[0]);
      CrankFollows(b0, CrankSlot(b, accepted[0]), accepted[1..]);
    }
  }

  /** A step that leaves contributors and what they got as refund alone. */
  ghost predicate RefundsUntouched(b: Book, b': Book) {
    && b'.roll == b.roll && Cranked(b') == Cranked(b)
    && forall a :: RefundOf(b', a) == RefundOf(b, a)
  }

  lemma UntouchedFollows(b0: Book, b: Book, b': Book)
    requires JustBegun(b0) && FollowsOneShot(b0, b) && RefundsUntouched(b, b')
    requires (b'.ev.status == b.ev.status && b'.cancel == b.cancel) || b'.ev.status.Cancelled?
    ensures FollowsOneShot(b0, b')
  {
    forall i | 0 <= i < |b0.roll.list|
      ensures SlotFollows(b0, b', i)
    {
      assert SlotFollows(b0, b, i);
    }
  }

  lemma FinalizeUntouched(b: Book)
    requires MoneyInv(b) && FinalizeOk(b)
    ensures RefundsUntouched(b, FinalizeStep(b)) && FinalizeStep(b).ev.status.Cancelled?
  {
    var b', residual := FinalizeStep(b), OwnerResidual(b.cancel.value);
    forall a
      ensures RefundOf(b', a) == RefundOf(b, a)
    {
      AppendFor(b.moves, Residual(residual), a);
      assert residual <= 0 ==> b'.moves == b.moves;
    }
  }

  lemma FinalizeFollows(b0: Book, b: Book)
    requires JustBegun(b0) && FollowsOneShot(b0, b) && MoneyInv(b) && FinalizeOk(b)
    ensures FollowsOneShot(b0, FinalizeStep(b))
  {
    FinalizeUntouched(b);
    UntouchedFollows(b0, b, FinalizeStep(b));
  }

  lemma CollectUntouched(b: Book, c: Address)
    requires HeldOf(b.held, c) > 0
    ensures RefundsUntouched(b, Collect(b, c))
    ensures Collect(b, c).ev == b.ev && Collect(b, c).cancel == b.cancel
  {
    var b' := Collect(b, c);
    forall a
      ensures RefundOf(b', a) == RefundOf(b, a)
    {
      AppendFor(b.moves, Refund(c, HeldOf(b.held, c)), a);
    }
  }

  lemma CollectFollows(b0: Book, b: Book, c: Address)
    requires JustBegun(b0) && FollowsOneShot(b0, b) && HeldOf(b.held, c) > 0
    ensures FollowsOneShot(b0, Collect(b, c))
  {
    CollectUntouched(b, c);
    UntouchedFollows(b0, b, Collect(b, c));
  }

  lemma DelegateFollows(b0: Book, b: Book, m: Option<Address>)
    requires JustBegun(b0) && FollowsOneShot(b0, b)
    ensures FollowsOneShot(b0, b.(manager := m))
  {
    UntouchedFollows(b0, b, b.(manager := m));
  }

  lemma ClosedSteps(b: Book, op: Op)
    requires Enabled(b, op) && !b.ev.status.Active?
    ensures op.Crank? || op.FinalizeCancel? || op.CollectRefund? || op.Delegate?
  {
  }

  lemma StepFollows(b0: Book, b: Book, op: Op)
    requires JustBegun(b0) && FollowsOneShot(b0, b) && BookInv(b) && Enabled(b, op)
    ensures FollowsOneShot(b0, Apply(b, op))
  {
    ClosedSteps(b, op);
    match op
    case Crank(accepted) => CrankFollows(b0, b, accepted);
    case FinalizeCancel => FinalizeFollows(b0, b);
    case CollectRefund(c) => CollectFollows(b0, b, c);
    case Delegate(m) => DelegateFollows(b0, b, m);
  }

  /** The paged crank refines a one-shot refund: after any sequence of batches of any size,
      with any refusals and any refunds claimed in between, every contributor the crank has
      handled has got exactly the refund a single pass would have given it. */
  lemma {:induction false} PagedCrankIsOneShot(b0: Book, ops: seq<Op>)
    requires JustBegun(b0) && Allowed(b0, ops)
    ensures FollowsOneShot(b0, ApplyAll(b0, ops))
    decreases |ops|
  {
    if ops == [] {
      BegunFollows(b0);
    } else {
      var before := ApplyAll(b0, ops[..|ops| - 1]);
      PagedCrankIsOneShot(b0, ops[..|ops| - 1]);
      HistoryKeeps(b0, ops[..|ops| - 1]);
      StepFollows(b0, before, ops[|ops| - 1]);
    }
  }

  /** Once the event is cancelled, everyone has got the whole one-shot refund. */
  lemma FinalizedMeansRefunded(b0: Book, ops: seq<Op>)
    requires JustBegun(b0) && Allowed(b0, ops) && ApplyAll(b0, ops).ev.status.Cancelled?
    ensures forall i :: 0 <= i < |b0.roll.list| ==>
              RefundOf(ApplyAll(b0, ops), b0.roll.list[i]) == OneShot(b0, i)
  {
    PagedCrankIsOneShot(b0, ops);
    HistoryKeeps(b0, ops);
    var b := ApplyAll(b0, ops);
    forall i | 0 <= i < |b0.roll.list|
      ensures RefundOf(b, b0.roll.list[i]) == OneShot(b0, i)
    {
      assert SlotFollows(b0, b, i);
    }
  }

  // ---- pages and progress ----------------------------------------------------------------

  /** Two batches in a row are one longer batch. */
  lemma {:induction false} PagesJoin(b: Book, bal: Balances, env: Env, m: nat, n: nat)
    ensures var (b', bal') := W.CrankSlots(b, bal, env, m);
            W.CrankSlots(b', bal', env, n) == W.CrankSlots(b, bal, env, m + n)
    decreases m
  {
    if m > 0 && MoreSlots(b) {
      var (ok, mid) := Answer(b, bal, env);
      UnfoldCrank(b, bal, env, m);
      UnfoldCrank(b, bal, env, m + n);
      PagesJoin(CrankSlot(b, ok), mid, env, m - 1, n);
    } else if m > 0 {
      assert W.CrankSlots(b, bal, env, m) == (b, bal);
    }
  }

  /** How far a batch gets: it handles cap slots, or all that are left. */
  lemma {:induction false} BatchAdvances(b: Book, bal: Balances, env: Env, cap: nat)
    requires b.cancel.Some? && b.cancel.value.nextIdx <= b.cancel.value.countAtStart
    ensures var b' := W.CrankSlots(b, bal, env, cap).0; var st := b.cancel.value;
            b'.cancel == Some(st.(nextIdx := Min(st.countAtStart, st.nextIdx + cap)))
    decreases cap
  {
    if cap > 0 && MoreSlots(b) {
      var refund := NextRefund(b);
      if refund.None? {
        BatchAdvances(CrankSlot(b, true), bal, env, cap - 1);
      } else {
        var r := Release(bal, env, b.ev.token, refund.value.0, refund.value.1);
        BatchAdvances(CrankSlot(b, r.Ok?), if r.Ok? then r.value else bal, env, cap - 1);
      }
    }
  }

  /** Batches of the given sizes, each with what its host answers. */
  function CrankPages(b: Book, bal: Balances, pages: seq<(Env, nat)>): (Book, Balances)
    decreases |pages|
  {
    if pages == [] then (b, bal)
    else
      var (b', bal') := W.CrankSlots(b, bal, pages[0].0, pages[0].1);
      CrankPages(b', bal', pages[1..])
  }

  function PageTotal(pages: seq<(Env, nat)>): nat {
    if pages == [] then 0 else pages[0].1 + PageTotal(pages[1..])
  }

  /** Any sequence of page sizes gets as far as their total, and so to the end. */
  lemma {:induction false} PagesFinish(b: Book, bal: Balances, pages: seq<(Env, nat)>)
    requires b.cancel.Some? && b.cancel.value.nextIdx <= b.cancel.value.countAtStart
    ensures var b' := CrankPages(b, bal, pages).0; var st := b.cancel.value;
            && b'.cancel == Some(st.(nextIdx := Min(st.countAtStart, st.nextIdx + PageTotal(pages))))
            && (MoreSlots(b') <==> PageTotal(pages) < st.countAtStart - st.nextIdx)
    decreases |pages|
  {
    if pages != [] {
      var (b', bal') := W.CrankSlots(b, bal, pages[0].0, pages[0].1);
      BatchAdvances(b, bal, pages[0].0, pages[0].1);
      PagesFinish(b', bal', pages[1..]);
    }
  }
}
