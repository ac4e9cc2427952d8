/** Totals over the transfers made for an event. */
module Audit {
  import opened Numeric
  import opened Types
  import opened Books

  /** What moved for an event, by what it was for. */
  datatype Totals = Totals(deposits: int, fees: int, payouts: int, refunds: int, residual: int) {
    function Net(): int { deposits - fees - payouts - refunds - residual }
  }

  function AddMove(t: Totals, m: Move): Totals {
    match m
    case Deposit(_, x) => t.(deposits := t.deposits + x)
    case Fee(x) => t.(fees := t.fees + x)
    case Payout(_, x) => t.(payouts := t.payouts + x)
    case Refund(_, x) => t.(refunds := t.refunds + x)
    case Residual(x) => t.(residual := t.residual + x)
  }

  function Tally(moves: seq<Move>): Totals {
    if moves == [] then Totals(0, 0, 0, 0, 0)
    else AddMove(Tally(moves[..|moves| - 1]), moves[|moves| - 1])
  }

  function Flow(m: Move): int {
    var amount: int := m.amount;
    if m.Deposit? then amount else -amount
  }

  /** What a list of transfers leaves in the contract. */
  function Net(moves: seq<Move>): int {
    if moves == [] then 0 else Net(moves[..|moves| - 1]) + Flow(moves[|moves| - 1])
  }

  function NetOf(b: Book): int { Net(b.moves) }

  lemma {:induction false} NetIsTally(moves: seq<Move>)
    ensures Tally(moves).Net() == Net(moves)
  {
    if moves != [] {
      NetIsTally(moves[..|moves| - 1]);
    }
  }

  /** What one account was paid out, and what it was refunded. */
  function PaidTo(moves: seq<Move>, who: Address): int {
    if moves == [] then 0
    else
      var m := moves[|moves| - 1];
      PaidTo(moves[..|moves| - 1], who) + if m.Payout? && m.to == who then m.amount else 0
  }

  function RefundedTo(moves: seq<Move>, who: Address): int {
    if moves == [] then 0
    else
      var m := moves[|moves| - 1];
      RefundedTo(moves[..|moves| - 1], who) + if m.Refund? && m.to == who then m.amount else 0
  }

  lemma Append(moves: seq<Move>, m: Move)
    ensures Net(moves + [m]) == Net(moves) + Flow(m)
    ensures forall a :: PaidTo(moves + [m], a) == PaidTo(moves, a) + if m.Payout? && m.to == a then m.amount else 0
    ensures forall a :: RefundedTo(moves + [m], a) == RefundedTo(moves, a)
              + if m.Refund? && m.to == a then m.amount else 0
  {
    assert (moves + [m])[..|moves|] == moves;
  }

  lemma AppendNet(moves: seq<Move>, m: Move)
    ensures Net(moves + [m]) == Net(moves) + Flow(m)
  {
    assert (moves + [m])[..|moves|] == moves;
  }

  /** Two transfers in a row. */
  lemma AppendTwo(moves: seq<Move>, m: Move, n: Move, more: seq<Move>)
    requires more == moves + [m] + [n]
    ensures Net(more) == Net(moves) + Flow(m) + Flow(n)
    ensures !m.Payout? && !n.Payout? ==> forall a :: PaidTo(more, a) == PaidTo(moves, a)
    ensures m.Payout? && !n.Payout? ==>
              forall a :: PaidTo(more, a) == PaidTo(moves, a) + if m.to == a then m.amount else 0
    ensures !m.Refund? && !n.Refund? ==> forall a :: RefundedTo(more, a) == RefundedTo(moves, a)
  {
    var mid := moves + [m];
    AppendNet(moves, m);
    AppendNet(mid, n);
    forall a
      ensures PaidTo(more, a) == PaidTo(mid, a) + if n.Payout? && n.to == a then n.amount else 0
      ensures PaidTo(mid, a) == PaidTo(moves, a) + if m.Payout? && m.to == a then m.amount else 0
      ensures !m.Refund? && !n.Refund? ==> RefundedTo(more, a) == RefundedTo(moves, a)
    {
      AppendFor(moves, m, a);
      AppendFor(mid, n, a);
    }
  }

  lemma AppendFor(moves: seq<Move>, m: Move, a: Address)
    ensures PaidTo(moves + [m], a) == PaidTo(moves, a) + if m.Payout? && m.to == a then m.amount else 0
    ensures RefundedTo(moves + [m], a) == RefundedTo(moves, a) + if m.Refund? && m.to == a then m.amount else 0
  {
    assert (moves + [m])[..|moves|] == moves;
  }

  lemma AppendDeposit(moves: seq<Move>, from: Address, amount: I128, fee: I128)
    requires fee >= 0 && amount + fee <= I128_MAX && amount >= 0
    ensures var more := moves + DepositMoves(from, amount, fee);
            && Net(more) == Net(moves) + amount
            && (forall a :: PaidTo(more, a) == PaidTo(moves, a))
            && (forall a :: RefundedTo(more, a) == RefundedTo(moves, a))
  {
    var more, deposit := moves + DepositMoves(from, amount, fee), Deposit(from, amount + fee);
    if fee > 0 {
      assert more == moves + [deposit] + [Fee(fee)];
      AppendTwo(moves, deposit, Fee(fee), more);
    } else {
      assert more == moves + [deposit];
      Append(moves, deposit);
    }
  }

  lemma AppendRelease(moves: seq<Move>, to: Address, amount: I128, fee: I128)
    requires 0 <= fee < amount
    ensures var more := moves + ReleaseMoves(to, amount, fee);
            && Net(more) == Net(moves) - amount
            && (forall a :: PaidTo(more, a) == PaidTo(moves, a) + if a == to then amount - fee else 0)
            && (forall a :: RefundedTo(more, a) == RefundedTo(moves, a))
  {
    var more, payout := moves + ReleaseMoves(to, amount, fee), Payout(to, amount - fee);
    if fee > 0 {
      assert more == moves + [payout] + [Fee(fee)];
      AppendTwo(moves, payout, Fee(fee), more);
    } else {
      assert more == moves + [payout];
      Append(moves, payout);
    }
  }
}
