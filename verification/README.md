# Ewallet ledger model

This project models the ledger core of the ewallet service in Dafny. That
core is the three request handlers: deposit, withdraw and transfer
("makeTransaction"). Each handler runs an ordered series of decline checks
and then does one of two things:

- it writes a single DECLINED operation record and changes no balance, or
- it updates wallet balances with exact `BigDecimal` arithmetic, then
  writes a single COMPLETED operation record and saves the wallets.

The audit journal is modelled too. It flags a transfer as suspicious when
the amount is above 10000. Its rolling one-day window of completed
withdrawals feeds the daily withdrawal limit.

Files and modules:

- `decimal.dfy` (`Decimal`): `BigDecimal` as an unscaled integer plus a
  scale. `Value` gives its exact rational value. It provides `compareTo`,
  `add`, `subtract`, `remainder(ONE)` and `setScale(2)`. `setScale(2)`
  fails (`RoundingNecessary`) instead of rounding.
- `entities.dfy` (`Entities`): operation records, wallet rows, request DTOs
  and save DTOs. Ids are opaque integers; timestamps are milliseconds.
- `operation_mapper.dfy` (`OperationMapper`), `ewallet_mapper.dfy`
  (`EwalletMapper`): the builders.
- `operation_dao.dfy` (`OperationDao`): the WHERE clause of the daily-window
  query, as a filter over the journal.
- `operation_service.dfy` (`OperationJournal`): the journal. It is a class
  whose `journal: seq<Operation>` is appended by `Save`. It also holds the
  suspicious flag, the one-day cutoff and the daily-window query.
- `ewallet_dto.dfy` (`WalletDto`): the wallet's balance arithmetic, and the
  `EwalletDto` class whose `balance` field `Deposit` and `Withdraw` update
  in place.
- `ledger_rules.dfy` (`LedgerRules`): the value-level rules. It holds the
  validators, the daily-limit fold and one decision function per handler.
  A decision function gives the outcome and the balances a request leaves.
  The lemmas about all of these live here too.
- `ewallet_service.dfy` (`EwalletLedger`): the `EwalletService` class. It
  holds a store `wallets: map<Uuid, EwalletDto>` of managed wallet objects
  and the journal service. Each handler is proved to move the store exactly
  as its decision function says. Each one also appends exactly one record,
  unless it throws. Each preserves `Valid()`:
  - every wallet is stored under its own id;
  - every balance has at most two fractional digits and is never negative;
  - every journal record is sound (only declined transfers are flagged).

A call's random operation id and the current time are method parameters
(`opUuid`, `now`). An exception is modelled as the outcome `Threw(fault)`.
The request runs in a transaction, so the exception rolls it back: on that
outcome nothing is written to the journal.

The service models the code as written, including the three defects listed
under "## Findings". Next to each defect the model has a corrected
definition with its intended property proved. For the transfer this is a
separate method, `MakeTransactionToDestination`.

Each handler is split into its checks (`Deposit`, `Withdraw`,
`MakeTransaction`), in the source's order, and its success path (`CompleteDeposit`,
`CompleteWithdraw`, `CompleteTransaction`). The balance updates go through
`DepositOnto` and `WithdrawFrom`. Only the proof is split this way; the
sequence of steps is that of the source.

## Model

| member | source | states |
|---|---|---|
| Decimal.Compare | src/main/java/ewallet/dto/ewallet/internal/EwalletDto.java:37 | compareTo returns -1, 0 or 1 exactly as the first value is below, equal to or above the second; the scales play no part |
| Decimal.Add | src/main/java/ewallet/dto/ewallet/internal/EwalletDto.java:23 | add is exact: the value of the result is the sum of the values, at the larger scale |
| Decimal.Subtract | src/main/java/ewallet/dto/ewallet/internal/EwalletDto.java:30 | subtract is exact: the value of the result is the difference of the values, at the larger scale |
| Decimal.SetScale2 | src/main/java/ewallet/dto/ewallet/internal/EwalletDto.java:23 | setScale(2) succeeds exactly when no non-zero digit lies past the hundredths; on success it gives scale 2 and the same value, so nothing is ever rounded |
| Decimal.SetScale2FailsOnlyWhenInexact | src/main/java/ewallet/dto/ewallet/internal/EwalletDto.java:30 | when setScale(2) throws, no two-digit decimal has the value |
| Decimal.CentValueSurvivesSetScale2 | src/main/java/ewallet/dto/ewallet/internal/EwalletDto.java:23 | a value that some two-digit decimal has always passes setScale(2) |
| Decimal.FractionalPart | src/main/java/ewallet/service/ewallet/EwalletService.java:182 | remainder(ONE) keeps the scale, and for a non-negative amount its unscaled integer lies in [0, 10^scale) |
| Decimal.FractionalPartIsRemainder | src/main/java/ewallet/service/ewallet/EwalletService.java:182 | remainder(ONE) differs from the amount by a whole number and has the amount's sign: in [0, 1) for a non-negative amount, in (-1, 0] for a negative one |
| WalletDto.DepositedBalance | src/main/java/ewallet/dto/ewallet/internal/EwalletDto.java:21-26 | the new balance of a deposit has scale 2 and equals balance + amount |
| WalletDto.WithdrawnBalance | src/main/java/ewallet/dto/ewallet/internal/EwalletDto.java:28-33 | the new balance of a withdrawal has scale 2 and equals balance - amount, with no sufficiency check |
| WalletDto.DepositSucceedsIffCentAmount | src/main/java/ewallet/dto/ewallet/internal/EwalletDto.java:23 | on a balance with at most two fractional digits, a deposit throws exactly when the amount has a non-zero digit past the hundredths |
| WalletDto.WithdrawSucceedsIffCentAmount | src/main/java/ewallet/dto/ewallet/internal/EwalletDto.java:30 | the same for a withdrawal |
| WalletDto.WithdrawThenDeposit | src/main/java/ewallet/service/ewallet/EwalletService.java:153-154 | once the withdrawal succeeds, depositing the same amount back cannot throw and restores the balance's value |
| WalletDto.WithdrawInCents | src/main/java/ewallet/dto/ewallet/internal/EwalletDto.java:28-33 | between decimals with at most two fractional digits, a withdrawal is cent subtraction and never throws |
| WalletDto.WithdrawScenarios | src/test/java/ewallet/service/ewallet/EwalletServiceUTest.java:139-148 | 1.11-1=0.11, 2-1=1.00, 1.11-1.0=0.11, 1.11-1.1=0.01, 1.11-1.11=0.00 and 1.11-0.11=1.00; also 1-2=-1.00, since withdraw alone does not refuse an overdraft |
| WalletDto.EwalletDto.Deposit | src/main/java/ewallet/dto/ewallet/internal/EwalletDto.java:21-26 | replaces only the balance, by balance + amount at scale 2, and returns this object; on the exception the balance is left as it was |
| WalletDto.EwalletDto.Withdraw | src/main/java/ewallet/dto/ewallet/internal/EwalletDto.java:28-33 | replaces only the balance, by balance - amount at scale 2, and returns this object; on the exception the balance is left as it was |
| WalletDto.EwalletDto.IsEnoughBalance | src/main/java/ewallet/dto/ewallet/internal/EwalletDto.java:35-38 | holds exactly when the balance is at least the amount by value; reads only |
| EwalletMapper.ToEntity | src/main/java/ewallet/util/mapper/ewallet/EwalletMapper.java:11-17 | a new wallet keeps the DTO's id, has balance zero and has no owner set |
| EwalletMapper.ToDto | src/main/java/ewallet/util/mapper/ewallet/EwalletMapper.java:19-24 | the DTO carries exactly the given id |
| EwalletMapper.NewWalletRoundTrip | src/main/java/ewallet/util/mapper/ewallet/EwalletMapper.java:11-24 | toEntity(toDto(u)) is the wallet with id u, balance zero and no owner |
| OperationMapper.ToEntity | src/main/java/ewallet/util/mapper/operation/OperationMapper.java:17-28 | the entity carries every field of the DTO unchanged and the fresh id; the suspicious flag starts false and the creation date unset |
| OperationMapper.DepositToSaveDto | src/main/java/ewallet/util/mapper/operation/OperationMapper.java:30-39 | type DEPOSIT, no destination, the given wallet id and status, and the request's amount and description |
| OperationMapper.WithdrawToSaveDto | src/main/java/ewallet/util/mapper/operation/OperationMapper.java:41-50 | type WITHDRAWAL, no destination, the given wallet id and status, and the request's amount and description |
| OperationMapper.TransactionToSaveDto | src/main/java/ewallet/util/mapper/operation/OperationMapper.java:52-62 | type TRANSACTION, the destination from the request, the given wallet id and status, and the request's amount and description |
| OperationDao.LastDayWithdrawalsByWalletUuidAndLock | src/main/java/ewallet/repository/operation/OperationDao.java:16-18 | a record is in the result exactly when it is in the journal, belongs to the wallet, is a COMPLETED WITHDRAWAL and was created strictly after the cutoff; the result is a sub-multiset of the journal |
| OperationDao.WindowAppend | src/main/java/ewallet/repository/operation/OperationDao.java:16 | appending a record extends the query's answer by that record exactly when the record matches the clause |
| OperationDao.WindowScenarios | src/test/java/ewallet/repository/operation/OperationRepositoryITest.java:34-116 | a completed withdrawal is found with cutoffs 1, 5 and 23 hours before it and missed with cutoffs 2 and 3 days after it; as a deposit or declined it is never found |
| OperationJournal.IsSuspicious | src/main/java/ewallet/service/operation/OperationService.java:46-50 | flagged exactly when the record is a TRANSACTION of more than 10000 by value |
| OperationJournal.Stored | src/main/java/ewallet/service/operation/OperationService.java:25-34 | the stored record carries the DTO's fields, the fresh id and the insert time, and is flagged exactly for a transfer above 10000 |
| OperationJournal.Cutoff | src/main/java/ewallet/service/operation/OperationService.java:36-44 | the window starts exactly one day before now |
| OperationJournal.SuspiciousBoundIsStrict | src/test/java/ewallet/service/operation/OperationServiceUTest.java:62-69 | transfers of 9999 and exactly 10000 are not flagged; 10001 and 10000.01 are |
| OperationJournal.OnlyTransfersAreSuspicious | src/test/java/ewallet/service/operation/OperationServiceUTest.java:64-65 | deposits and withdrawals are never flagged, whatever the amount |
| OperationJournal.OperationService.Save | src/main/java/ewallet/service/operation/OperationService.java:25-34 | appends exactly one record, the mapped DTO with its flag decided and its creation time, and changes nothing else |
| OperationJournal.OperationService.LastDayWithdrawalsByWalletUuid | src/main/java/ewallet/service/operation/OperationService.java:36-44 | exactly the journal's completed withdrawals of the given wallet created after now minus one day |
| LedgerRules.DigitCountBound | src/main/java/ewallet/service/ewallet/EwalletService.java:193 | a positive integer has at most k digits exactly when it is below 10^k |
| LedgerRules.FractionalDigitsQuantity | src/main/java/ewallet/service/ewallet/EwalletService.java:191-194 | a positive part gives its number of decimal digits r, the one with 10^(r-1) <= part < 10^r; zero gives Integer.MIN_VALUE and a negative part 0; so a non-negative part counts as at most two digits exactly when it is below 100 |
| LedgerRules.IsAmountValid | src/main/java/ewallet/service/ewallet/EwalletService.java:177-189 | valid exactly when the amount is positive and the unscaled integer of its fractional part is below 100 |
| LedgerRules.IsTransactionRequestValid | src/main/java/ewallet/service/ewallet/EwalletService.java:172-175 | valid exactly when the amount is valid and strictly below 2000 |
| LedgerRules.TransferLimitIsStrict | src/main/java/ewallet/service/ewallet/EwalletService.java:33 | 2000 and 2000.00 are refused; 1999.99 is accepted |
| LedgerRules.IsCentAmount | src/main/java/ewallet/service/ewallet/EwalletService.java:177-189 | the corrected validator: positive and passing setScale(2) |
| LedgerRules.ValidatorsAgreeUpToTwoDigits | src/main/java/ewallet/service/ewallet/EwalletService.java:182-187 | for amounts written with at most two fractional digits, the validator as written and the corrected one agree |
| LedgerRules.ValidatorCountsUnscaledDigits | src/main/java/ewallet/service/ewallet/EwalletService.java:182-187 | 0.001 passes the validator as written but has a thousandth; 0.100 is refused although it is ten cents |
| LedgerRules.CentAmountsSettle | src/main/java/ewallet/service/ewallet/EwalletService.java:177-189 | with the corrected validator, deposits and withdrawals on two-digit balances never throw |
| LedgerRules.SumAmounts | src/main/java/ewallet/service/ewallet/EwalletService.java:110-112 | the reduction from ZERO is exactly the sum of the amounts |
| LedgerRules.ExceedsDailyLimit | src/main/java/ewallet/service/ewallet/EwalletService.java:107-118 | exceeded exactly when the window's past amounts alone total more than 5000 |
| LedgerRules.ExceedsDailyLimitWith | src/main/java/ewallet/service/ewallet/EwalletService.java:114 | the corrected check: the past amounts plus the requested one total more than 5000 |
| LedgerRules.CompletedWithdrawalJoinsWindow | src/main/java/ewallet/service/ewallet/EwalletService.java:95-98 | the record of a completed withdrawal joins its wallet's window at once and adds its amount to the window's total |
| LedgerRules.LimitWithAmountBoundsWindow | src/main/java/ewallet/service/ewallet/EwalletService.java:114 | with the corrected check, the window total with the new withdrawal never exceeds 5000 |
| LedgerRules.JournalAppend | src/main/java/ewallet/service/operation/OperationService.java:33 | appending a sound record keeps every record of the journal sound |
| LedgerRules.DepositDecision | src/main/java/ewallet/service/ewallet/EwalletService.java:43-63 | declined exactly for an invalid amount or a missing wallet; otherwise no balance changes; on completion only the wallet's balance changes, to balance + amount at scale 2 |
| LedgerRules.WithdrawDecision | src/main/java/ewallet/service/ewallet/EwalletService.java:71-99 | declined exactly for an invalid amount, a missing wallet, a balance below the amount or a window total above 5000; on completion only the wallet's balance changes, to balance - amount at scale 2 |
| LedgerRules.TransactionDecision | src/main/java/ewallet/service/ewallet/EwalletService.java:120-158 | the transfer as written: declined exactly for an invalid or over-limit amount, a missing source or a short balance; on completion only the source's balance is rewritten, and its value does not change |
| LedgerRules.TransferDecision | src/main/java/ewallet/service/ewallet/EwalletService.java:120-158 | the corrected transfer: declined also for a missing destination; on completion the source loses the amount and the destination gains it, and every other wallet is unchanged |
| LedgerRules.DepositKeepsBalancesSound | src/main/java/ewallet/service/ewallet/EwalletService.java:59 | a deposit keeps every balance at two digits and non-negative |
| LedgerRules.WithdrawKeepsBalancesSound | src/main/java/ewallet/service/ewallet/EwalletService.java:90-95 | the balance check keeps every balance non-negative after a withdrawal |
| LedgerRules.TransactionKeepsBalancesSound | src/main/java/ewallet/service/ewallet/EwalletService.java:153-154 | the transfer as written keeps the balances sound |
| LedgerRules.TransferKeepsBalancesSound | src/main/java/ewallet/service/ewallet/EwalletService.java:139-154 | the corrected transfer keeps the balances sound |
| LedgerRules.NonPositiveAmountsAreDeclined | src/main/java/ewallet/service/ewallet/EwalletService.java:177-181 | every handler declines an amount that is zero or less, whatever the wallets hold, and changes no balance |
| LedgerRules.TransactionAsWrittenMovesNothing | src/main/java/ewallet/service/ewallet/EwalletService.java:144-154 | the transfer as written never changes the value of any balance; it completes exactly when the checks pass and the amount is whole cents |
| LedgerRules.TransferMovesAmount | src/main/java/ewallet/service/ewallet/EwalletService.java:151-154 | the corrected transfer throws only for an amount with sub-cent digits, and completes whenever its checks pass and the amount is whole cents |
| LedgerRules.CompletedTransferNeverSuspicious | src/main/java/ewallet/service/ewallet/EwalletService.java:172-175 | a completed transfer is below 2000, so its record is never flagged and is sound |
| LedgerRules.StoredRecordSound | src/main/java/ewallet/service/operation/OperationService.java:29-31 | a record whose completed amount is positive, and below 2000 for a transfer, is stored sound: the flag lands only on declined transfers |
| LedgerRules.SubCentDepositThrows | src/main/java/ewallet/service/ewallet/EwalletService.java:44-59 | depositing 0.001 onto a zero balance passes validation and then throws, leaving no record |
| LedgerRules.CentValidatedRequestsAreRecorded | src/main/java/ewallet/service/ewallet/EwalletService.java:177-189 | with the corrected validator, deposits and withdrawals on sound balances always end in a record, never an exception |
| LedgerRules.DailyLimitIgnoresRequestedAmount | src/main/java/ewallet/service/ewallet/EwalletService.java:107-118 | with no history and a 10000.00 balance, withdrawing 6000 completes, and the window then totals more than 5000 |
| EwalletLedger.EwalletService.Save | src/main/java/ewallet/service/ewallet/EwalletService.java:37-41 | stores a new wallet with balance zero under the DTO's id, overwriting any wallet there; other wallets and the journal are untouched |
| EwalletLedger.EwalletService.Deposit | src/main/java/ewallet/service/ewallet/EwalletService.java:43-63 | the balances and outcome are those of DepositDecision; exactly one record with that status is appended unless the request throws; the invariant is kept |
| EwalletLedger.EwalletService.CompleteDeposit | src/main/java/ewallet/service/ewallet/EwalletService.java:58-62 | after the checks pass: the deposit, then the COMPLETED record and the wallet save, as DepositDecision says |
| EwalletLedger.EwalletService.DeclineDepositOperation | src/main/java/ewallet/service/ewallet/EwalletService.java:65-69 | appends one DECLINED deposit record and changes no balance |
| EwalletLedger.EwalletService.Withdraw | src/main/java/ewallet/service/ewallet/EwalletService.java:71-99 | the balances and outcome are those of WithdrawDecision on the journal before the call; exactly one record is appended unless the request throws |
| EwalletLedger.EwalletService.CompleteWithdraw | src/main/java/ewallet/service/ewallet/EwalletService.java:95-98 | after the checks pass: the withdrawal, then the COMPLETED record and the wallet save, as WithdrawDecision says |
| EwalletLedger.EwalletService.DeclineWithdrawOperation | src/main/java/ewallet/service/ewallet/EwalletService.java:101-105 | appends one DECLINED withdrawal record and changes no balance |
| EwalletLedger.EwalletService.ExceededDailyLimit | src/main/java/ewallet/service/ewallet/EwalletService.java:107-118 | the loop's sum of the wallet's last-day completed withdrawals exceeds 5000 exactly when their exact total does; the current amount is not included |
| EwalletLedger.EwalletService.MakeTransaction | src/main/java/ewallet/service/ewallet/EwalletService.java:120-158 | the balances and outcome are those of TransactionDecision, in which the destination is the source itself; exactly one record is appended unless the request throws |
| EwalletLedger.EwalletService.CompleteTransaction | src/main/java/ewallet/service/ewallet/EwalletService.java:151-157 | the withdrawal and the deposit on the one looked-up wallet, then the COMPLETED record and the save of that wallet twice |
| EwalletLedger.EwalletService.MakeTransactionToDestination | src/main/java/ewallet/service/ewallet/EwalletService.java:120-158 | the corrected transfer: the balances and outcome are those of TransferDecision, with exactly one record appended unless it throws |
| EwalletLedger.EwalletService.CompleteTransfer | src/main/java/ewallet/service/ewallet/EwalletService.java:151-157 | the corrected success path: the amount moves from source to destination, then the COMPLETED record and both wallets are saved |
| EwalletLedger.EwalletService.MoveAmount | src/main/java/ewallet/service/ewallet/EwalletService.java:153-154 | the two balance updates of the corrected transfer leave the balances TransferDecision gives, or throw with none changed |
| EwalletLedger.EwalletService.DepositOnto | src/main/java/ewallet/service/ewallet/EwalletService.java:59 | deposit on a stored wallet changes that wallet's balance and no other |
| EwalletLedger.EwalletService.WithdrawFrom | src/main/java/ewallet/service/ewallet/EwalletService.java:95 | withdraw on a stored wallet changes that wallet's balance and no other |
| EwalletLedger.EwalletService.DeclineTransactionOperation | src/main/java/ewallet/service/ewallet/EwalletService.java:167-170 | appends one DECLINED transfer record and changes no balance |
| EwalletLedger.EwalletService.SaveEwallets | src/main/java/ewallet/service/ewallet/EwalletService.java:160-164 | appends the record first and then re-saves the managed wallets, which changes no balance and no id |

## Left out

- HTTP layer, request validation annotations and response handling: transport, not ledger logic.
- Customer management (`CustomerService`, its mapper, DTOs and store): profile plumbing with no ledger invariant. The NOT NULL constraint on the wallet row's `customerUuid` is not modelled either. A new wallet is created with no owner, exactly as the mapper builds it.
- Pessimistic locks and `@Transactional`: each request is one atomic step of a sequential model. The rollback on an exception is modelled only as "nothing is written" (`Threw`).
- JPA store failures: a failing `save` would propagate to the caller. The stores here are a map and a sequence that cannot fail.
- `UUID.randomUUID()`, `System.currentTimeMillis()` and `@CreationTimestamp`: passed in as `opUuid` and `now`.
- `Calendar.add(DAY_OF_MONTH, -1)` and its daylight-saving and time-zone behaviour: the cutoff is `now - 86400000`.
- Negative `BigDecimal` scales: the scale is a natural number.
- LedgerRules.FractionalDigitsQuantity: `(int) (Math.log10(fractionalPart.intValue()) + 1)` becomes an exact digit count. A fractional part that overflows an `int` makes the source truncate and possibly misjudge the amount; the model counts its real digits.
- EwalletLedger.EwalletService.MakeTransaction: the missing-destination decline cannot fire, because its lookup uses the source id that was just found. That branch is therefore absent from the as-written method.
- The source calls `deposit`, `withdraw` and `isEnoughBalance` on the wallet entity, which declares no such methods. The model uses the wallet DTO's methods instead.
- The journal service calls a repository method name that the repository does not declare. The model uses the filter of `lastDayWithdrawalsByWalletUuidAndLock`.
- The handlers use the validator and the daily limit as written. The corrected definitions (`IsCentAmount`, `ExceedsDailyLimitWith`) are stated and proved alongside them, but no handler uses them.

## Findings

| source | as written | input that shows it | evidently intended | confidence | as-written member | corrected member |
|---|---|---|---|---|---|---|
| src/main/java/ewallet/service/ewallet/EwalletService.java:182-187 | counts the digits of the unscaled integer of the fractional part, not the fractional digits of the amount | deposit of 0.001 (unscaled 1, scale 3) onto a zero balance: it passes validation, then setScale(2) throws; 0.100 is refused although it is ten cents | refuse exactly the amounts with a non-zero digit past the hundredths | not executed | LedgerRules.SubCentDepositThrows | LedgerRules.CentValidatedRequestsAreRecorded |
| src/main/java/ewallet/service/ewallet/EwalletService.java:114 | compares only the past day's completed withdrawals with the limit | no history and a balance of 10000.00: a withdrawal of 6000 completes and the window then holds 6000 | include the requested amount in the sum | not executed | LedgerRules.DailyLimitIgnoresRequestedAmount | LedgerRules.LimitWithAmountBoundsWindow |
| src/main/java/ewallet/service/ewallet/EwalletService.java:144 | looks the destination up with the source id | any valid transfer between two distinct wallets with enough balance: it completes and no balance changes value | look up the request's destinationWalletUuid | not executed | LedgerRules.TransactionAsWrittenMovesNothing | LedgerRules.TransferMovesAmount |
