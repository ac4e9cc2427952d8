/** Token balances, the transfers the contract asks for, and its fees. */
module Escrow {
  import opened Numeric
  import opened Types

  /** No account can hold I128_MAX units: the supply of every token is smaller. */
  type Balance = x: int | 0 <= x < I128_MAX

  /** What each holder has of each token. */
  type Balances = map<(Address, Address), Balance>

  /** The address of the events contract itself. */
  const SELF := Address(0)

  /** What a call sees of its host: the ledger time, the accounts that authorised it,
      and the accounts whose transfers the token refuses during it. */
  datatype Env = Env(now: U64, auths: set<Address>, frozen: set<Address>)

  function BalanceOf(bal: Balances, token: Address, holder: Address): Balance {
    if (token, holder) in bal then bal[(token, holder)] else 0
  }

  function Transfer(bal: Balances, env: Env, token: Address, from: Address, to: Address, amount: I128)
    : Result<Balances>
  {
    if amount < 0 || from in env.frozen || to in env.frozen then Err(TransferRefused) else
    :- Need(amount <= BalanceOf(bal, token, from), InsufficientBalance);
    if from == to then Ok(bal)
    else
      :- Need(BalanceOf(bal, token, to) + amount < I128_MAX, TransferRefused);
      Ok(bal[(token, from) := BalanceOf(bal, token, from) - amount]
            [(token, to) := BalanceOf(bal, token, to) + amount])
  }

  function ComputeFee(amount: I128, bps: U32): I128 {
    TruncDiv(SatMul(amount, bps), 10_000)
  }

  function DepositWithFee(bal: Balances, env: Env, token: Address, from: Address,
                          feeAccount: Address, amount: I128, bps: U32): Result<Balances>
  {
    var fee := ComputeFee(amount, bps);
    var funded :- Transfer(bal, env, token, from, SELF, SatAdd(amount, fee));
    if fee > 0 then Transfer(funded, env, token, SELF, feeAccount, fee) else Ok(funded)
  }

  function Release(bal: Balances, env: Env, token: Address, to: Address, amount: I128): Result<Balances> {
    Transfer(bal, env, token, SELF, to, amount)
  }

  function ReleaseWithFee(bal: Balances, env: Env, token: Address, to: Address,
                          feeAccount: Address, amount: I128, bps: U32): Result<Balances>
  {
    var fee := ComputeFee(amount, bps);
    var net := SatSub(amount, fee);
    var paid :- if net > 0 then Transfer(bal, env, token, SELF, to, net) else Ok(bal);
    if fee > 0 then Transfer(paid, env, token, SELF, feeAccount, fee) else Ok(paid)
  }

  /** The fee is the floored share of the product clipped at its width, so the floored share
      of the amount exactly until the product saturates past a whole unit. */
  lemma FeeIsFlooredShare(amount: I128, bps: U32)
    requires amount >= 0
    ensures ComputeFee(amount, bps) == Min(amount * bps, I128_MAX) / 10_000
    ensures ComputeFee(amount, bps) == amount * bps / 10_000 <==> amount * bps / 10_000 <= I128_MAX / 10_000
  {
    MulNonNegative(amount, bps);
  }

  lemma MulNonNegative(a: nat, b: nat)
    ensures a * b >= 0
  {
  }

  /** At a rate within the cap the fee is at most a tenth, so a release pays its recipient. */
  lemma FeeBounds(amount: I128, bps: U32)
    requires amount >= 0 && bps <= MAX_FEE_BPS
    ensures 0 <= ComputeFee(amount, bps) <= amount / 10
    ensures amount > 0 ==> SatSub(amount, ComputeFee(amount, bps)) > 0
    ensures SatSub(amount, ComputeFee(amount, bps)) + ComputeFee(amount, bps) == amount
  {
    MulMonotone(bps, MAX_FEE_BPS, amount);
    MulNonNegative(amount, bps);
    assert amount * bps == bps * amount <= 1_000 * amount;
  }

  /** What a transfer does to every balance, and exactly when it goes through. */
  lemma TransferEffect(bal: Balances, env: Env, token: Address, from: Address, to: Address, amount: I128)
    ensures Transfer(bal, env, token, from, to, amount).Ok? <==>
            && 0 <= amount <= BalanceOf(bal, token, from)
            && from !in env.frozen && to !in env.frozen
            && (from != to ==> BalanceOf(bal, token, to) + amount < I128_MAX)
    ensures var r := Transfer(bal, env, token, from, to, amount);
            r.Ok? && from != to ==>
              && BalanceOf(r.value, token, from) == BalanceOf(bal, token, from) - amount
              && BalanceOf(r.value, token, to) == BalanceOf(bal, token, to) + amount
              && forall t, a :: (t, a) != (token, from) && (t, a) != (token, to) ==>
                   BalanceOf(r.value, t, a) == BalanceOf(bal, t, a)
    ensures var r := Transfer(bal, env, token, from, to, amount);
            r.Ok? && from == to ==> r.value == bal
  {
  }

  /** The contract's own balance of token grows by at least `gain` (which may be negative)
      and its balance of every other token is untouched. */
  ghost predicate Gains(bal: Balances, bal': Balances, token: Address, gain: int) {
    && BalanceOf(bal', token, SELF) >= BalanceOf(bal, token, SELF) + gain
    && forall t :: t != token ==> BalanceOf(bal', t, SELF) == BalanceOf(bal, t, SELF)
  }

  /** The part of `amount` that is `who`'s. */
  function Part(holder: Address, who: Address, amount: int): int { if holder == who then amount else 0 }

  /** The contract took in `amount` and passed `fee` on, both from `from`; no other balance
      moved. Holders that play two parts get the sum of both. */
  ghost predicate Deposited(bal: Balances, bal': Balances, token: Address, from: Address, feeAccount: Address,
                            amount: int, fee: int)
  {
    && (forall a :: BalanceOf(bal', token, a) ==
          BalanceOf(bal, token, a) + Part(a, SELF, amount) + Part(a, feeAccount, fee) - Part(a, from, amount + fee))
    && forall t, a :: t != token ==> BalanceOf(bal', t, a) == BalanceOf(bal, t, a)
  }

  /** `amount` went from one holder to another; no other balance moved. */
  ghost predicate Moved(bal: Balances, bal': Balances, token: Address, from: Address, to: Address, amount: int) {
    && (forall a :: BalanceOf(bal', token, a) == BalanceOf(bal, token, a) + Part(a, to, amount) - Part(a, from, amount))
    && forall t, a :: t != token ==> BalanceOf(bal', t, a) == BalanceOf(bal, t, a)
  }

  lemma TransferMoves(bal: Balances, env: Env, token: Address, from: Address, to: Address, amount: I128)
    requires Transfer(bal, env, token, from, to, amount).Ok?
    ensures Moved(bal, Transfer(bal, env, token, from, to, amount).value, token, from, to, amount)
  {
    TransferEffect(bal, env, token, from, to, amount);
  }

  /** The contract paid `amount` to `to`; no other balance moved. */
  ghost predicate Paid(bal: Balances, bal': Balances, token: Address, to: Address, amount: int) {
    Moved(bal, bal', token, SELF, to, amount)
  }

  /** The contract paid `amount`, the fee of it to the fee account and the rest to `to`. */
  ghost predicate PaidWithFee(bal: Balances, bal': Balances, token: Address, to: Address, feeAccount: Address,
                              amount: int, fee: int)
  {
    && (forall a :: BalanceOf(bal', token, a) ==
          BalanceOf(bal, token, a) + Part(a, to, amount - fee) + Part(a, feeAccount, fee) - Part(a, SELF, amount))
    && forall t, a :: t != token ==> BalanceOf(bal', t, a) == BalanceOf(bal, t, a)
  }

  /** A deposit that goes through did not saturate: the contract takes in exactly
      amount + fee and passes exactly the fee on. */
  lemma DepositEffect(bal: Balances, env: Env, token: Address, from: Address,
                      feeAccount: Address, amount: I128, bps: U32)
    requires amount > 0 && from != SELF
    requires DepositWithFee(bal, env, token, from, feeAccount, amount, bps).Ok?
    ensures var bal' := DepositWithFee(bal, env, token, from, feeAccount, amount, bps).value;
            var fee := ComputeFee(amount, bps);
            && fee >= 0
            && SatAdd(amount, fee) == amount + fee
            && Gains(bal, bal', token, amount)
            && BalanceOf(bal, token, SELF) + amount < I128_MAX
            && Deposited(bal, bal', token, from, feeAccount, amount, fee)
  {
    var fee := ComputeFee(amount, bps);
    MulNonNegative(amount, bps);
    TransferEffect(bal, env, token, from, SELF, SatAdd(amount, fee));
    var funded := Transfer(bal, env, token, from, SELF, SatAdd(amount, fee)).value;
    if fee > 0 {
      TransferEffect(funded, env, token, SELF, feeAccount, fee);
    }
  }

  /** A release takes exactly its amount from the contract's balance of that token and
      gives it to the recipient, whoever that is. */
  lemma ReleaseEffect(bal: Balances, env: Env, token: Address, to: Address, amount: I128)
    requires Release(bal, env, token, to, amount).Ok?
    ensures amount >= 0
    ensures Gains(bal, Release(bal, env, token, to, amount).value, token, -amount)
    ensures Paid(bal, Release(bal, env, token, to, amount).value, token, to, amount)
  {
    TransferEffect(bal, env, token, SELF, to, amount);
    TransferMoves(bal, env, token, SELF, to, amount);
  }

  /** A crowdfunding release splits its gross amount: the recipient's net and the fee
      together are exactly what leaves the contract. */
  lemma ReleaseWithFeeEffect(bal: Balances, env: Env, token: Address, to: Address,
                             feeAccount: Address, amount: I128, bps: U32)
    requires amount > 0 && bps <= MAX_FEE_BPS
    requires ReleaseWithFee(bal, env, token, to, feeAccount, amount, bps).Ok?
    ensures var bal' := ReleaseWithFee(bal, env, token, to, feeAccount, amount, bps).value;
            && Gains(bal, bal', token, -amount)
            && PaidWithFee(bal, bal', token, to, feeAccount, amount, ComputeFee(amount, bps))
  {
    var fee := ComputeFee(amount, bps);
    FeeBounds(amount, bps);
    TransferMoves(bal, env, token, SELF, to, amount - fee);
    var paid := Transfer(bal, env, token, SELF, to, amount - fee).value;
    if fee > 0 {
      TransferMoves(paid, env, token, SELF, feeAccount, fee);
      BothMoves(bal, paid, Transfer(paid, env, token, SELF, feeAccount, fee).value, token, to, feeAccount, amount, fee);
    } else {
      BothMoves(bal, paid, paid, token, to, feeAccount, amount, fee);
    }
  }

  lemma BothMoves(bal: Balances, mid: Balances, bal': Balances, token: Address, to: Address, feeAccount: Address,
                  amount: int, fee: int)
    requires Moved(bal, mid, token, SELF, to, amount - fee) && Moved(mid, bal', token, SELF, feeAccount, fee)
    requires 0 <= fee <= amount
    ensures PaidWithFee(bal, bal', token, to, feeAccount, amount, fee)
    ensures Gains(bal, bal', token, -amount)
  {
    forall a
      ensures BalanceOf(bal', token, a) ==
              BalanceOf(bal, token, a) + Part(a, to, amount - fee) + Part(a, feeAccount, fee) - Part(a, SELF, amount)
    {
      assert BalanceOf(mid, token, a) ==
             BalanceOf(bal, token, a) + Part(a, to, amount - fee) - Part(a, SELF, amount - fee);
    }
    forall t, a | t != token
      ensures BalanceOf(bal', t, a) == BalanceOf(bal, t, a)
    {
      assert BalanceOf(mid, t, a) == BalanceOf(bal, t, a);
    }
  }
}
