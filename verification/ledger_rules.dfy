/** The decision rules of the wallet service, stated on values: which
    requests are valid, when the daily withdrawal limit is exceeded, and
    for each request handler the outcome it reaches and the balances it
    leaves behind. The service class proves its handlers against these. */
module LedgerRules {
  import opened Wrappers
  import opened Decimal
  import opened Entities
  import opened WalletDto
  import OperationMapper
  import OperationDao
  import opened OperationJournal

  /** SINGLE_TRANSACTION_LIMIT */
  const SingleTransactionLimit := Dec(2000, 0)

  /** DAILY_WITHDRAW_LIMIT */
  const DailyWithdrawLimit := Dec(5000, 0)

  /** Integer.MIN_VALUE, what `(int) (log10(0) + 1)` evaluates to. */
  const IntMinValue: int := -2147483648

  // ---------------------------------------------------------------------
  // Amount validation
  // ---------------------------------------------------------------------

  /** The number of decimal digits of a positive integer: the exact value of
      `(int) (log10(n) + 1)`. */
  function DigitCount(n: nat): (r: nat)
    ensures r >= 1
  {
    if n < 10 then 1 else 1 + DigitCount(n / 10)
  }

  lemma {:induction false} DigitCountBound(n: nat, k: nat)
    requires n >= 1
    ensures DigitCount(n) <= k <==> n < Pow10(k)
  {
    if n >= 10 && k >= 1 {
      DigitCountBound(n / 10, k - 1);
      assert n / 10 < Pow10(k - 1) <==> n < 10 * Pow10(k - 1);
    }
  }

  /** getFractionalDigitsQuantity on the unscaled fractional part: the
      digit count of a positive part, Integer.MIN_VALUE for zero (the
      logarithm is minus infinity) and 0 for a negative part (the
      logarithm is NaN). */
  function FractionalDigitsQuantity(fractionalPart: int): (r: int)
    ensures fractionalPart > 0 ==> r >= 1 && Pow10(r - 1) <= fractionalPart < Pow10(r)
    ensures fractionalPart == 0 ==> r == IntMinValue
    ensures fractionalPart < 0 ==> r == 0
    ensures fractionalPart >= 0 ==> (r <= 2 <==> fractionalPart < 100)
  {
    if fractionalPart == 0 then IntMinValue
    else if fractionalPart < 0 then 0
    else
      var n := DigitCount(fractionalPart);
      DigitCountBound(fractionalPart, 2);
      DigitCountBound(fractionalPart, n);
      DigitCountBound(fractionalPart, n - 1);
      n
  }

  /** isAmountValid: the amount is positive and the unscaled integer of its
      fractional part has at most two digits. */
  function IsAmountValid(amount: Dec): (r: bool)
    ensures r <==> Value(amount) > 0.0 && amount.unscaled % Pow10(amount.scale) < 100
  {
    PositiveValue(amount);
    if Compare(amount, Zero) <= 0 then false
    else
      var fractionalPart := FractionalPart(amount).unscaled;
      FractionalDigitsQuantity(fractionalPart) <= 2
  }

  /** isTransactionRequestValid: a valid amount strictly below the single
      transaction limit. */
  function IsTransactionRequestValid(amount: Dec): (r: bool)
    ensures r <==> IsAmountValid(amount) && Value(amount) < 2000.0
  {
    WholeValue(2000);
    IsAmountValid(amount) && Compare(amount, SingleTransactionLimit) < 0
  }

  /** The limit is strict: 2000 is refused, 1999.99 accepted. */
  lemma TransferLimitIsStrict()
    ensures !IsTransactionRequestValid(Dec(2000, 0))
    ensures !IsTransactionRequestValid(Dec(200000, 2))
    ensures IsTransactionRequestValid(Dec(199999, 2))
  {
  }

  /** The validation the balance arithmetic needs: a positive amount with no
      non-zero digit past the hundredths. */
  function IsCentAmount(amount: Dec): (r: bool)
    ensures r <==> Value(amount) > 0.0 && SetScale2(amount).Ok?
  {
    assert Value(Zero) == 0.0;
    Compare(amount, Zero) > 0 && HasCentDigitsOnly(amount)
  }

  /** For amounts written with at most two fractional digits the validator
      as written and the cent validator agree. */
  lemma ValidatorsAgreeUpToTwoDigits(amount: Dec)
    requires amount.scale <= 2
    ensures IsAmountValid(amount) <==> IsCentAmount(amount)
  {
    assert Pow10(amount.scale) <= 100;
  }

  /** The validator as written counts the digits of the fractional part's
      unscaled integer, not the fractional digits of the amount: 0.001 has a
      one-digit fractional part and passes although it has a thousandth,
      while 0.100, exactly ten cents, has a three-digit one and is refused. */
  lemma ValidatorCountsUnscaledDigits()
    ensures IsAmountValid(Dec(1, 3)) && !IsCentAmount(Dec(1, 3))
    ensures !IsAmountValid(Dec(100, 3)) && IsCentAmount(Dec(100, 3))
  {
    assert Pow10(1) == 10 && Pow10(3) == 1000;
    PositiveValue(Dec(1, 3));
    PositiveValue(Dec(100, 3));
  }

  /** With the cent validator no balance arithmetic of a valid request can
      throw: deposits and withdrawals on any balance with at most two
      fractional digits succeed. */
  lemma CentAmountsSettle(balance: Dec, amount: Dec)
    requires balance.scale <= 2 && IsCentAmount(amount)
    ensures DepositedBalance(balance, amount).Ok?
    ensures WithdrawnBalance(balance, amount).Ok?
  {
    DepositSucceedsIffCentAmount(balance, amount);
    WithdrawSucceedsIffCentAmount(balance, amount);
  }

  // ---------------------------------------------------------------------
  // The daily withdrawal limit
  // ---------------------------------------------------------------------

  /** The exact sum of the amounts of a list of operations. */
  function AmountTotal(ops: seq<Operation>): real
  {
    if ops == [] then 0.0 else Value(ops[0].amount) + AmountTotal(ops[1..])
  }

  lemma {:induction false} AmountTotalAppend(ops: seq<Operation>, op: Operation)
    ensures AmountTotal(ops + [op]) == AmountTotal(ops) + Value(op.amount)
  {
    if ops != [] {
      assert (ops + [op])[1..] == ops[1..] + [op];
      AmountTotalAppend(ops[1..], op);
    }
  }

  /** The stream reduction of exceededDailyLimit: the amounts added one by
      one to BigDecimal.ZERO, from the first operation to the last. */
  function SumAmounts(ops: seq<Operation>): (r: Dec)
    ensures Value(r) == AmountTotal(ops)
    decreases |ops|
  {
    if ops == [] then Zero
    else
      var init, last := ops[..|ops| - 1], ops[|ops| - 1];
      assert ops == init + [last];
      AmountTotalAppend(init, last);
      Add(SumAmounts(init), last.amount)
  }

  /** The check exceededDailyLimit applies to the window it queried: the
      past amounts alone, strictly above the limit. */
  function ExceedsDailyLimit(history: seq<Operation>): (r: bool)
    ensures r <==> AmountTotal(history) > 5000.0
  {
    WholeValue(5000);
    Compare(SumAmounts(history), DailyWithdrawLimit) > 0
  }

  /** The check the limit calls for: the past amounts together with the
      requested one, strictly above the limit. */
  function ExceedsDailyLimitWith(history: seq<Operation>, amount: Dec): (r: bool)
    ensures r <==> AmountTotal(history) + Value(amount) > 5000.0
  {
    WholeValue(5000);
    Compare(Add(SumAmounts(history), amount), DailyWithdrawLimit) > 0
  }

  /** The record a completed withdrawal appends. */
  function CompletedWithdrawal(uuid: Uuid, request: WithdrawRequest, opUuid: Uuid, now: Timestamp): Operation
  {
    OperationJournal.Stored(OperationMapper.WithdrawToSaveDto(uuid, request, COMPLETED), opUuid, now)
  }

  /** A completed withdrawal enters its wallet's window at once, adding its
      amount to the window's total. */
  lemma CompletedWithdrawalJoinsWindow(journal: seq<Operation>, uuid: Uuid, request: WithdrawRequest, opUuid: Uuid, now: Timestamp)
    ensures Window(journal + [CompletedWithdrawal(uuid, request, opUuid, now)], uuid, now)
         == Window(journal, uuid, now) + [CompletedWithdrawal(uuid, request, opUuid, now)]
    ensures AmountTotal(Window(journal + [CompletedWithdrawal(uuid, request, opUuid, now)], uuid, now))
         == AmountTotal(Window(journal, uuid, now)) + Value(request.amount)
  {
    var op := CompletedWithdrawal(uuid, request, opUuid, now);
    OperationDao.WindowAppend(journal, op, uuid, OperationJournal.Cutoff(now));
    AmountTotalAppend(Window(journal, uuid, now), op);
  }

  /** The check with the requested amount keeps every window, the new
      withdrawal included, within the limit. */
  lemma LimitWithAmountBoundsWindow(journal: seq<Operation>, uuid: Uuid, request: WithdrawRequest, opUuid: Uuid, now: Timestamp)
    requires !ExceedsDailyLimitWith(Window(journal, uuid, now), request.amount)
    ensures AmountTotal(Window(journal + [CompletedWithdrawal(uuid, request, opUuid, now)], uuid, now)) <= 5000.0
  {
    CompletedWithdrawalJoinsWindow(journal, uuid, request, opUuid, now);
  }

  // ---------------------------------------------------------------------
  // Handler decisions
  // ---------------------------------------------------------------------

  /** How a request ends: one operation record written with the given
      status, or an exception from setScale(2) that rolls the request back
      with nothing written. */
  datatype Outcome = Recorded(status: OperationStatus) | Threw(fault: Fault)

  /** A request's outcome and the wallet balances after it. */
  datatype Decision = Decision(outcome: Outcome, balances: map<Uuid, Dec>)

  /** The balances every wallet keeps: no digit past the hundredths and
      never below zero. */
  predicate BalancesSound(balances: map<Uuid, Dec>)
  {
    forall u | u in balances :: balances[u].scale <= 2 && Value(balances[u]) >= 0.0
  }

  /** What every record the service writes satisfies: a completed record
      has a positive amount, a completed transfer one below the single
      transaction limit, and only a declined transfer is flagged. */
  predicate RecordSound(op: Operation)
  {
    && (op.operationStatus == COMPLETED ==> Value(op.amount) > 0.0)
    && (op.operationType == TRANSACTION && op.operationStatus == COMPLETED ==> Value(op.amount) < 2000.0)
    && (op.suspicious ==> op.operationType == TRANSACTION && op.operationStatus == DECLINED)
  }

  predicate JournalSound(journal: seq<Operation>)
  {
    forall i | 0 <= i < |journal| :: RecordSound(journal[i])
  }

  /** Appending a sound record keeps the journal sound. */
  lemma JournalAppend(journal: seq<Operation>, op: Operation)
    requires JournalSound(journal) && RecordSound(op)
    ensures JournalSound(journal + [op])
  {
    forall i | 0 <= i < |journal + [op]|
      ensures RecordSound((journal + [op])[i])
    {
      if i < |journal| {
        assert (journal + [op])[i] == journal[i];
      }
    }
  }

  /** deposit: declined when the amount is invalid or the wallet is missing;
      otherwise the balance grows by the amount, unless setScale(2)
      throws. */
  function DepositDecision(balances: map<Uuid, Dec>, uuid: Uuid, amount: Dec): (d: Decision)
    ensures d.outcome == Recorded(DECLINED) <==> !IsAmountValid(amount) || uuid !in balances
    ensures d.outcome != Recorded(COMPLETED) ==> d.balances == balances
    ensures d.outcome == Recorded(COMPLETED) ==>
      && uuid in balances
      && d.balances.Keys == balances.Keys
      && (forall u | u in balances && u != uuid :: d.balances[u] == balances[u])
      && d.balances[uuid].scale == 2
      && Value(d.balances[uuid]) == Value(balances[uuid]) + Value(amount)
  {
    if !IsAmountValid(amount) || uuid !in balances then Decision(Recorded(DECLINED), balances)
    else
      match DepositedBalance(balances[uuid], amount)
      case Err(f) => Decision(Threw(f), balances)
      case Ok(b) => Decision(Recorded(COMPLETED), balances[uuid := b])
  }

  /** withdraw: declined when the amount is invalid, the wallet is missing,
      the balance does not cover the amount or the last day's withdrawals
      already exceed the limit; otherwise the balance shrinks by the amount,
      unless setScale(2) throws. */
  function WithdrawDecision(balances: map<Uuid, Dec>, journal: seq<Operation>, now: Timestamp, uuid: Uuid, amount: Dec): (d: Decision)
    ensures d.outcome == Recorded(DECLINED) <==>
      || !IsAmountValid(amount) || uuid !in balances
      || Value(balances[uuid]) < Value(amount)
      || AmountTotal(Window(journal, uuid, now)) > 5000.0
    ensures d.outcome != Recorded(COMPLETED) ==> d.balances == balances
    ensures d.outcome == Recorded(COMPLETED) ==>
      && uuid in balances
      && d.balances.Keys == balances.Keys
      && (forall u | u in balances && u != uuid :: d.balances[u] == balances[u])
      && d.balances[uuid].scale == 2
      && Value(d.balances[uuid]) == Value(balances[uuid]) - Value(amount)
  {
    if !IsAmountValid(amount) || uuid !in balances then Decision(Recorded(DECLINED), balances)
    else if Compare(balances[uuid], amount) < 0 || ExceedsDailyLimit(Window(journal, uuid, now)) then
      Decision(Recorded(DECLINED), balances)
    else
      match WithdrawnBalance(balances[uuid], amount)
      case Err(f) => Decision(Threw(f), balances)
      case Ok(b) => Decision(Recorded(COMPLETED), balances[uuid := b])
  }

  /** makeTransaction as written: the destination is looked up with the
      source's own id, so a transfer that passes the checks withdraws the
      amount from the source and deposits it straight back. */
  function TransactionDecision(balances: map<Uuid, Dec>, uuid: Uuid, request: TransactionRequest): (d: Decision)
    ensures d.outcome == Recorded(DECLINED) <==>
      || !IsTransactionRequestValid(request.amount) || uuid !in balances
      || Value(balances[uuid]) < Value(request.amount)
    ensures d.outcome != Recorded(COMPLETED) ==> d.balances == balances
    ensures d.outcome == Recorded(COMPLETED) ==>
      && uuid in balances
      && d.balances.Keys == balances.Keys
      && (forall u | u in balances && u != uuid :: d.balances[u] == balances[u])
      && d.balances[uuid].scale == 2
      && Value(d.balances[uuid]) == Value(balances[uuid])
  {
    var amount := request.amount;
    if !IsTransactionRequestValid(amount) || uuid !in balances then Decision(Recorded(DECLINED), balances)
    else if Compare(balances[uuid], amount) < 0 then Decision(Recorded(DECLINED), balances)
    else
      match WithdrawnBalance(balances[uuid], amount)
      case Err(f) => Decision(Threw(f), balances)
      case Ok(w) =>
        match DepositedBalance(w, amount)
        case Err(f) => Decision(Threw(f), balances)
        case Ok(b) => Decision(Recorded(COMPLETED), balances[uuid := b])
  }

  /** makeTransaction with the destination looked up by the request's
      destination id: declined also when that wallet is missing; otherwise
      the amount moves from the source to the destination. */
  function TransferDecision(balances: map<Uuid, Dec>, uuid: Uuid, request: TransactionRequest): (d: Decision)
    ensures d.outcome == Recorded(DECLINED) <==>
      || !IsTransactionRequestValid(request.amount) || uuid !in balances
      || Value(balances[uuid]) < Value(request.amount)
      || request.destinationWalletUuid !in balances
    ensures d.outcome != Recorded(COMPLETED) ==> d.balances == balances
    ensures d.outcome == Recorded(COMPLETED) ==>
      var dest := request.destinationWalletUuid;
      && uuid in balances && dest in balances
      && d.balances.Keys == balances.Keys
      && (forall u | u in balances && u != uuid && u != dest :: d.balances[u] == balances[u])
      && d.balances[uuid].scale == 2 && d.balances[dest].scale == 2
      && (dest != uuid ==>
            && Value(d.balances[uuid]) == Value(balances[uuid]) - Value(request.amount)
            && Value(d.balances[dest]) == Value(balances[dest]) + Value(request.amount))
      && (dest == uuid ==> Value(d.balances[uuid]) == Value(balances[uuid]))
  {
    var amount := request.amount;
    var dest := request.destinationWalletUuid;
    if !IsTransactionRequestValid(amount) || uuid !in balances then Decision(Recorded(DECLINED), balances)
    else if Compare(balances[uuid], amount) < 0 then Decision(Recorded(DECLINED), balances)
    else if dest !in balances then Decision(Recorded(DECLINED), balances)
    else
      match WithdrawnBalance(balances[uuid], amount)
      case Err(f) => Decision(Threw(f), balances)
      case Ok(w) =>
        var debited := balances[uuid := w];
        match DepositedBalance(debited[dest], amount)
        case Err(f) => Decision(Threw(f), balances)
        case Ok(b) => Decision(Recorded(COMPLETED), debited[dest := b])
  }

  // ---------------------------------------------------------------------
  // Properties of the decisions
  // ---------------------------------------------------------------------

  /** Every handler keeps the balances sound: deposits add positive amounts,
      withdrawals and transfers are covered by the balance, and every
      result is written with two fractional digits. One lemma per handler. */
  lemma DepositKeepsBalancesSound(balances: map<Uuid, Dec>, uuid: Uuid, amount: Dec)
    requires BalancesSound(balances)
    ensures BalancesSound(DepositDecision(balances, uuid, amount).balances)
  {
  }

  lemma WithdrawKeepsBalancesSound(balances: map<Uuid, Dec>, journal: seq<Operation>, now: Timestamp, uuid: Uuid, amount: Dec)
    requires BalancesSound(balances)
    ensures BalancesSound(WithdrawDecision(balances, journal, now, uuid, amount).balances)
  {
  }

  lemma TransactionKeepsBalancesSound(balances: map<Uuid, Dec>, uuid: Uuid, request: TransactionRequest)
    requires BalancesSound(balances)
    ensures BalancesSound(TransactionDecision(balances, uuid, request).balances)
  {
  }

  lemma TransferKeepsBalancesSound(balances: map<Uuid, Dec>, uuid: Uuid, request: TransactionRequest)
    requires BalancesSound(balances)
    ensures BalancesSound(TransferDecision(balances, uuid, request).balances)
  {
  }

  /** A zero or negative amount is declined by every handler before any
      wallet is looked up: no balance matters and none changes. */
  lemma NonPositiveAmountsAreDeclined(balances: map<Uuid, Dec>, journal: seq<Operation>, now: Timestamp,
                                      uuid: Uuid, request: TransactionRequest)
    requires Value(request.amount) <= 0.0
    ensures DepositDecision(balances, uuid, request.amount) == Decision(Recorded(DECLINED), balances)
    ensures WithdrawDecision(balances, journal, now, uuid, request.amount) == Decision(Recorded(DECLINED), balances)
    ensures TransactionDecision(balances, uuid, request) == Decision(Recorded(DECLINED), balances)
    ensures TransferDecision(balances, uuid, request) == Decision(Recorded(DECLINED), balances)
  {
  }

  /** Once a wallet's balances are sound, the transfer as written never
      throws after its withdrawal succeeds: the same amount deposited back
      onto a two-digit balance needs no rounding. It completes exactly when
      the checks pass and the amount has no digit past the hundredths, and
      then no wallet's balance changes in value. */
  lemma TransactionAsWrittenMovesNothing(balances: map<Uuid, Dec>, uuid: Uuid, request: TransactionRequest)
    requires BalancesSound(balances)
    ensures var d := TransactionDecision(balances, uuid, request);
      && d.balances.Keys == balances.Keys
      && (forall u | u in balances :: Value(d.balances[u]) == Value(balances[u]))
      && (d.outcome == Recorded(COMPLETED) <==>
            && IsTransactionRequestValid(request.amount) && uuid in balances
            && Value(balances[uuid]) >= Value(request.amount)
            && SetScale2(request.amount).Ok?)
  {
    if IsTransactionRequestValid(request.amount) && uuid in balances {
      var b := balances[uuid];
      WithdrawSucceedsIffCentAmount(b, request.amount);
      if WithdrawnBalance(b, request.amount).Ok? {
        WithdrawThenDeposit(b, request.amount);
      }
    }
  }

  /** The same request sent to the corrected transfer with a destination
      other than the source does move the amount, and it can only throw when
      the amount has a digit past the hundredths. */
  lemma TransferMovesAmount(balances: map<Uuid, Dec>, uuid: Uuid, request: TransactionRequest)
    requires BalancesSound(balances)
    ensures var d := TransferDecision(balances, uuid, request);
      d.outcome.Threw? ==> SetScale2(request.amount).Err?
    ensures var d := TransferDecision(balances, uuid, request);
      && IsTransactionRequestValid(request.amount) && SetScale2(request.amount).Ok?
      && uuid in balances && request.destinationWalletUuid in balances
      && Value(balances[uuid]) >= Value(request.amount)
      ==> d.outcome == Recorded(COMPLETED)
  {
    var amount, dest := request.amount, request.destinationWalletUuid;
    if IsTransactionRequestValid(amount) && uuid in balances && dest in balances {
      WithdrawSucceedsIffCentAmount(balances[uuid], amount);
      if WithdrawnBalance(balances[uuid], amount).Ok? {
        var debited := balances[uuid := WithdrawnBalance(balances[uuid], amount).value];
        DepositSucceedsIffCentAmount(debited[dest], amount);
      }
    }
  }

  /** A transfer of 10000 or more never completes, so a completed transfer
      is never flagged: the flag can only ever mark declined transfers. */
  lemma CompletedTransferNeverSuspicious(uuid: Uuid, request: TransactionRequest, opUuid: Uuid, now: Timestamp)
    requires IsTransactionRequestValid(request.amount)
    ensures !OperationJournal.Stored(OperationMapper.TransactionToSaveDto(uuid, request, COMPLETED), opUuid, now).suspicious
    ensures RecordSound(OperationJournal.Stored(OperationMapper.TransactionToSaveDto(uuid, request, COMPLETED), opUuid, now))
  {
  }

  /** A record is stored sound when a completed one carries a positive
      amount and, for a transfer, one below the single transaction limit:
      the flag can then only land on a declined transfer. */
  lemma StoredRecordSound(dto: SaveOperationDto, opUuid: Uuid, now: Timestamp)
    requires dto.operationStatus == COMPLETED ==> Value(dto.amount) > 0.0
    requires dto.operationStatus == COMPLETED && dto.operationType == TRANSACTION ==> Value(dto.amount) < 2000.0
    ensures RecordSound(OperationJournal.Stored(dto, opUuid, now))
  {
  }

  /** An amount with a thousandth passes the validator as written and then
      makes the deposit throw at setScale(2), so the request leaves no
      record at all. */
  lemma SubCentDepositThrows()
    ensures DepositDecision(map[7 := Dec(0, 0)], 7, Dec(1, 3)).outcome == Threw(RoundingNecessary)
  {
    ValidatorCountsUnscaledDigits();
    DepositSucceedsIffCentAmount(Dec(0, 0), Dec(1, 3));
  }

  /** With the cent validator in its place, a valid deposit or withdrawal
      on sound balances is recorded, never thrown. */
  lemma CentValidatedRequestsAreRecorded(balances: map<Uuid, Dec>, journal: seq<Operation>, now: Timestamp, uuid: Uuid, amount: Dec)
    requires BalancesSound(balances) && IsCentAmount(amount)
    ensures DepositDecision(balances, uuid, amount).outcome.Recorded?
    ensures WithdrawDecision(balances, journal, now, uuid, amount).outcome.Recorded?
  {
    if uuid in balances {
      CentAmountsSettle(balances[uuid], amount);
    }
  }

  /** The limit as written lets a single withdrawal overrun it: with no
      history and a balance of 10000.00, withdrawing 6000 completes and
      leaves 6000 in the window. */
  lemma DailyLimitIgnoresRequestedAmount(opUuid: Uuid, now: Timestamp)
    ensures WithdrawDecision(map[7 := Dec(1000000, 2)], [], now, 7, Dec(6000, 0)).outcome == Recorded(COMPLETED)
    ensures AmountTotal(Window([CompletedWithdrawal(7, WithdrawRequest(Dec(6000, 0), None), opUuid, now)], 7, now)) > 5000.0
  {
    assert Window([], 7, now) == [];
    assert Pow10(0) == 1 && Pow10(2) == 100;
    WholeValue(6000);
    assert Value(Dec(1000000, 2)) == 10000.0;
    assert IsAmountValid(Dec(6000, 0));
    WithdrawInCents(Dec(1000000, 2), Dec(6000, 0), 400000);
    CompletedWithdrawalJoinsWindow([], 7, WithdrawRequest(Dec(6000, 0), None), opUuid, now);
  }
}
