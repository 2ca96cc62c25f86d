/** The wallet the service loads and updates: its balance arithmetic. */
module WalletDto {
  import opened Wrappers
  import opened Decimal
  import opened Entities

  /** The balance `deposit` computes: balance + amount at scale 2, or the
      exception setScale(2) throws. */
  function DepositedBalance(balance: Dec, amount: Dec): (r: Result<Dec, Fault>)
    ensures r.Ok? ==> r.value.scale == 2 && Value(r.value) == Value(balance) + Value(amount)
  {
    SetScale2(Add(balance, amount))
  }

  /** The balance `withdraw` computes: balance - amount at scale 2, or the
      exception setScale(2) throws. Nothing stops it going below zero. */
  function WithdrawnBalance(balance: Dec, amount: Dec): (r: Result<Dec, Fault>)
    ensures r.Ok? ==> r.value.scale == 2 && Value(r.value) == Value(balance) - Value(amount)
  {
    SetScale2(Subtract(balance, amount))
  }

  lemma CentSum(x: int, y: int)
    ensures Value(Dec(x + y, 2)) == Value(Dec(x, 2)) + Value(Dec(y, 2))
    ensures Value(Dec(x - y, 2)) == Value(Dec(x, 2)) - Value(Dec(y, 2))
  {
    DivAdd(x as real, y as real, 100.0);
  }

  /** Starting from a balance with at most two fractional digits, a deposit
      fails exactly when the amount has a non-zero digit past the
      hundredths. */
  lemma DepositSucceedsIffCentAmount(balance: Dec, amount: Dec)
    requires balance.scale <= 2
    ensures DepositedBalance(balance, amount).Ok? <==> SetScale2(amount).Ok?
  {
    var b := SetScale2(balance).value;
    var sum := Add(balance, amount);
    if SetScale2(amount).Ok? {
      var a := SetScale2(amount).value;
      CentSum(b.unscaled, a.unscaled);
      CentValueSurvivesSetScale2(sum, b.unscaled + a.unscaled);
    }
    if SetScale2(sum).Ok? {
      var s := SetScale2(sum).value;
      CentSum(s.unscaled, b.unscaled);
      CentValueSurvivesSetScale2(amount, s.unscaled - b.unscaled);
    }
  }

  /** The same for a withdrawal. */
  lemma WithdrawSucceedsIffCentAmount(balance: Dec, amount: Dec)
    requires balance.scale <= 2
    ensures WithdrawnBalance(balance, amount).Ok? <==> SetScale2(amount).Ok?
  {
    var b := SetScale2(balance).value;
    var diff := Subtract(balance, amount);
    if SetScale2(amount).Ok? {
      var a := SetScale2(amount).value;
      CentSum(b.unscaled, a.unscaled);
      CentValueSurvivesSetScale2(diff, b.unscaled - a.unscaled);
    }
    if SetScale2(diff).Ok? {
      var d := SetScale2(diff).value;
      CentSum(b.unscaled, d.unscaled);
      CentValueSurvivesSetScale2(amount, b.unscaled - d.unscaled);
    }
  }

  /** Withdrawing and then depositing the same amount on one wallet always
      succeeds once the withdrawal has, and restores the balance's value. */
  lemma WithdrawThenDeposit(balance: Dec, amount: Dec)
    requires balance.scale <= 2
    requires WithdrawnBalance(balance, amount).Ok?
    ensures DepositedBalance(WithdrawnBalance(balance, amount).value, amount).Ok?
    ensures Value(DepositedBalance(WithdrawnBalance(balance, amount).value, amount).value) == Value(balance)
  {
    WithdrawSucceedsIffCentAmount(balance, amount);
    DepositSucceedsIffCentAmount(WithdrawnBalance(balance, amount).value, amount);
  }

  /** The number of cents a decimal with at most two fractional digits
      stands for. */
  function Cents(d: Dec): int
    requires d.scale <= 2
  {
    d.unscaled * Pow10(2 - d.scale)
  }

  lemma AlignCents(d: Dec, s: nat)
    requires d.scale <= s <= 2
    ensures Align(d, s) * Pow10(2 - s) == Cents(d)
  {
    Pow10Add(s - d.scale, 2 - s);
    assert d.unscaled * Pow10(s - d.scale) * Pow10(2 - s) == d.unscaled * (Pow10(s - d.scale) * Pow10(2 - s));
  }

  /** Between decimals with at most two fractional digits a withdrawal is a
      subtraction of cents and never fails. */
  lemma WithdrawInCents(balance: Dec, amount: Dec, cents: int)
    requires balance.scale <= 2 && amount.scale <= 2
    requires cents == Cents(balance) - Cents(amount)
    ensures WithdrawnBalance(balance, amount) == Ok(Dec(cents, 2))
  {
    var s := Max(balance.scale, amount.scale);
    AlignCents(balance, s);
    AlignCents(amount, s);
    assert (Align(balance, s) - Align(amount, s)) * Pow10(2 - s)
        == Align(balance, s) * Pow10(2 - s) - Align(amount, s) * Pow10(2 - s);
  }

  /** The withdrawal scenarios of the service tests (1.11 - 1 = 0.11,
      2 - 1 = 1.00, 1.11 - 1.0 = 0.11, 1.11 - 1.1 = 0.01, 1.11 - 1.11 = 0.00,
      1.11 - 0.11 = 1.00), and a withdrawal past the balance, which the
      arithmetic itself does not refuse. */
  lemma WithdrawScenarios()
    ensures WithdrawnBalance(Dec(111, 2), Dec(1, 0)) == Ok(Dec(11, 2))
    ensures WithdrawnBalance(Dec(2, 0), Dec(1, 0)) == Ok(Dec(100, 2))
    ensures WithdrawnBalance(Dec(111, 2), Dec(10, 1)) == Ok(Dec(11, 2))
    ensures WithdrawnBalance(Dec(111, 2), Dec(11, 1)) == Ok(Dec(1, 2))
    ensures WithdrawnBalance(Dec(111, 2), Dec(111, 2)) == Ok(Dec(0, 2))
    ensures WithdrawnBalance(Dec(111, 2), Dec(11, 2)) == Ok(Dec(100, 2))
    ensures WithdrawnBalance(Dec(1, 0), Dec(2, 0)) == Ok(Dec(-100, 2))
  {
    assert Pow10(0) == 1 && Pow10(1) == 10 && Pow10(2) == 100;
    WithdrawInCents(Dec(111, 2), Dec(1, 0), 11);
    WithdrawInCents(Dec(111, 2), Dec(10, 1), 11);
    WithdrawInCents(Dec(111, 2), Dec(11, 1), 1);
    WithdrawInCents(Dec(2, 0), Dec(1, 0), 100);
    WithdrawInCents(Dec(111, 2), Dec(111, 2), 0);
    WithdrawInCents(Dec(111, 2), Dec(11, 2), 100);
    WithdrawInCents(Dec(1, 0), Dec(2, 0), -100);
  }

  class EwalletDto {
    const uuid: Uuid
    var balance: Dec
    const customerUuid: Option<Uuid>

    constructor (uuid: Uuid, balance: Dec, customerUuid: Option<Uuid>)
      ensures this.uuid == uuid && this.balance == balance && this.customerUuid == customerUuid
    {
      this.uuid := uuid;
      this.balance := balance;
      this.customerUuid := customerUuid;
    }

    /** deposit: replaces the balance by balance + amount at scale 2 and
        returns this wallet; setScale(2) throws when rounding would be
        needed, and the balance is then left as it was. */
    method Deposit(amount: Dec) returns (r: Result<EwalletDto, Fault>)
      modifies this
      ensures r.Ok? <==> DepositedBalance(old(balance), amount).Ok?
      ensures r.Ok? ==> r.value == this && balance == DepositedBalance(old(balance), amount).value
      ensures r.Err? ==> balance == old(balance)
    {
      var newBalance := SetScale2(Add(balance, amount));
      if newBalance.Err? {
        return Err(newBalance.error);
      }
      balance := newBalance.value;
      return Ok(this);
    }

    /** withdraw: replaces the balance by balance - amount at scale 2 and
        returns this wallet; it does not check that the balance suffices. */
    method Withdraw(amount: Dec) returns (r: Result<EwalletDto, Fault>)
      modifies this
      ensures r.Ok? <==> WithdrawnBalance(old(balance), amount).Ok?
      ensures r.Ok? ==> r.value == this && balance == WithdrawnBalance(old(balance), amount).value
      ensures r.Err? ==> balance == old(balance)
    {
      var newBalance := SetScale2(Subtract(balance, amount));
      if newBalance.Err? {
        return Err(newBalance.error);
      }
      balance := newBalance.value;
      return Ok(this);
    }

    /** isEnoughBalance: the balance covers the amount, by value. */
    function IsEnoughBalance(amount: Dec): (r: bool)
      reads this
      ensures r <==> Value(balance) >= Value(amount)
    {
      Compare(balance, amount) >= 0
    }
  }
}
