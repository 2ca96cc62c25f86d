/** The wallet service: it creates wallets and runs deposit, withdrawal and
    transfer requests against the wallet store, writing one operation record
    to the journal for every request that does not throw. */
module EwalletLedger {
  import opened Wrappers
  import opened Decimal
  import opened Entities
  import opened WalletDto
  import opened LedgerRules
  import OperationMapper
  import EwalletMapper
  import opened OperationJournal

  class EwalletService {
    /** The wallet store: each id maps to the one managed wallet object
        every lookup of that id returns. */
    var wallets: map<Uuid, EwalletDto>

    const operationService: OperationService

    constructor ()
      ensures Valid()
      ensures wallets == map[] && fresh(operationService) && operationService.journal == []
    {
      wallets := map[];
      operationService := new OperationService();
    }

    /** Every wallet is stored under its own id, the balances are sound and
        so is every record of the journal. */
    ghost predicate Valid()
      reads this, wallets.Values, operationService
    {
      && KeyedById()
      && BalancesSound(Balances())
      && JournalSound(operationService.journal)
    }

    /** Every wallet is stored under its own id; distinct ids therefore
        hold distinct wallet objects. */
    ghost predicate KeyedById()
      reads this
    {
      forall u | u in wallets :: wallets[u].uuid == u
    }

    /** The balance of every stored wallet. */
    ghost function Balances(): (b: map<Uuid, Dec>)
      reads this, wallets.Values
      ensures b.Keys == wallets.Keys
    {
      map u | u in wallets :: wallets[u].balance
    }

    /** save: store a new wallet with a zero balance under the DTO's id.
        An existing wallet with that id is overwritten. */
    method Save(saveEwalletDto: SaveEwalletDto)
      requires Valid()
      modifies this
      ensures Valid()
      ensures wallets.Keys == old(wallets.Keys) + {saveEwalletDto.uuid}
      ensures Balances() == old(Balances())[saveEwalletDto.uuid := Zero]
      ensures operationService.journal == old(operationService.journal)
    {
      var ewallet := EwalletMapper.ToEntity(saveEwalletDto);
      var stored := new EwalletDto(ewallet.uuid, ewallet.balance, ewallet.customerUuid);
      wallets := wallets[ewallet.uuid := stored];
      assert Balances() == old(Balances())[saveEwalletDto.uuid := Zero];
    }

    /** deposit: declined when the amount is invalid or the wallet missing;
        otherwise the wallet's balance grows by the amount and a completed
        record is written. `opUuid` and `now` stand for the record's random
        id and its creation time. */
    method Deposit(uuid: Uuid, request: DepositRequest, opUuid: Uuid, now: Timestamp) returns (outcome: Outcome)
      requires Valid()
      modifies this, operationService, wallets.Values
      ensures Valid() && wallets == old(wallets)
      ensures Decision(outcome, Balances()) == DepositDecision(old(Balances()), uuid, request.amount)
      ensures outcome.Recorded? ==>
        operationService.journal == old(operationService.journal)
          + [Stored(OperationMapper.DepositToSaveDto(uuid, request, outcome.status), opUuid, now)]
      ensures outcome.Threw? ==> operationService.journal == old(operationService.journal)
    {
      var amount := request.amount;
      if !IsAmountValid(amount) {
        DeclineDepositOperation(uuid, request, opUuid, now);
        return Recorded(DECLINED);
      }
      if uuid !in wallets {
        DeclineDepositOperation(uuid, request, opUuid, now);
        return Recorded(DECLINED);
      }
      var ewallet := wallets[uuid];
      outcome := CompleteDeposit(uuid, ewallet, request, opUuid, now);
    }

    /** The rest of deposit once the wallet is found: the deposit on the
        wallet, then the completed record and the wallet are saved. */
    method CompleteDeposit(uuid: Uuid, ewallet: EwalletDto, request: DepositRequest, opUuid: Uuid, now: Timestamp) returns (outcome: Outcome)
      requires Valid() && IsAmountValid(request.amount)
      requires uuid in wallets && wallets[uuid] == ewallet
      modifies this, operationService, ewallet
      ensures Valid() && wallets == old(wallets)
      ensures Decision(outcome, Balances()) == DepositDecision(old(Balances()), uuid, request.amount)
      ensures outcome.Recorded? ==>
        operationService.journal == old(operationService.journal)
          + [Stored(OperationMapper.DepositToSaveDto(uuid, request, outcome.status), opUuid, now)]
      ensures outcome.Threw? ==> operationService.journal == old(operationService.journal)
    {
      var amount := request.amount;
      var deposited := DepositOnto(uuid, ewallet, amount);
      if deposited.Err? {
        return Threw(deposited.error);
      }
      DepositKeepsBalancesSound(old(Balances()), uuid, amount);
      var saveOperationDto := OperationMapper.DepositToSaveDto(uuid, request, COMPLETED);
      StoredRecordSound(saveOperationDto, opUuid, now);
      SaveEwallets(saveOperationDto, [ewallet], opUuid, now);
      return Recorded(COMPLETED);
    }

    method DeclineDepositOperation(uuid: Uuid, request: DepositRequest, opUuid: Uuid, now: Timestamp)
      requires Valid()
      modifies operationService
      ensures Valid() && Balances() == old(Balances())
      ensures operationService.journal == old(operationService.journal)
        + [Stored(OperationMapper.DepositToSaveDto(uuid, request, DECLINED), opUuid, now)]
    {
      var saveOperationDto := OperationMapper.DepositToSaveDto(uuid, request, DECLINED);
      StoredRecordSound(saveOperationDto, opUuid, now);
      JournalAppend(operationService.journal, Stored(saveOperationDto, opUuid, now));
      operationService.Save(saveOperationDto, opUuid, now);
    }

    /** withdraw: declined when the amount is invalid, the wallet missing,
        the balance short of the amount or the last day's completed
        withdrawals already above the daily limit; otherwise the balance
        shrinks by the amount and a completed record is written. */
    method Withdraw(uuid: Uuid, request: WithdrawRequest, opUuid: Uuid, now: Timestamp) returns (outcome: Outcome)
      requires Valid()
      modifies this, operationService, wallets.Values
      ensures Valid() && wallets == old(wallets)
      ensures Decision(outcome, Balances())
           == WithdrawDecision(old(Balances()), old(operationService.journal), now, uuid, request.amount)
      ensures outcome.Recorded? ==>
        operationService.journal == old(operationService.journal)
          + [Stored(OperationMapper.WithdrawToSaveDto(uuid, request, outcome.status), opUuid, now)]
      ensures outcome.Threw? ==> operationService.journal == old(operationService.journal)
    {
      var amount := request.amount;
      if !IsAmountValid(amount) {
        DeclineWithdrawOperation(uuid, request, opUuid, now);
        return Recorded(DECLINED);
      }
      if uuid !in wallets {
        DeclineWithdrawOperation(uuid, request, opUuid, now);
        return Recorded(DECLINED);
      }
      var ewallet := wallets[uuid];
      if !ewallet.IsEnoughBalance(amount) {
        DeclineWithdrawOperation(uuid, request, opUuid, now);
        return Recorded(DECLINED);
      }
      var exceeded := ExceededDailyLimit(ewallet.uuid, now);
      if exceeded {
        DeclineWithdrawOperation(uuid, request, opUuid, now);
        return Recorded(DECLINED);
      }
      outcome := CompleteWithdraw(uuid, ewallet, request, opUuid, now);
    }

    /** The rest of withdraw once every check has passed: the withdrawal on
        the wallet, then the completed record and the wallet are saved. */
    method CompleteWithdraw(uuid: Uuid, ewallet: EwalletDto, request: WithdrawRequest, opUuid: Uuid, now: Timestamp) returns (outcome: Outcome)
      requires Valid() && IsAmountValid(request.amount)
      requires uuid in wallets && wallets[uuid] == ewallet
      requires Value(ewallet.balance) >= Value(request.amount)
      requires AmountTotal(Window(operationService.journal, uuid, now)) <= 5000.0
      modifies this, operationService, ewallet
      ensures Valid() && wallets == old(wallets)
      ensures Decision(outcome, Balances())
           == WithdrawDecision(old(Balances()), old(operationService.journal), now, uuid, request.amount)
      ensures outcome.Recorded? ==>
        operationService.journal == old(operationService.journal)
          + [Stored(OperationMapper.WithdrawToSaveDto(uuid, request, outcome.status), opUuid, now)]
      ensures outcome.Threw? ==> operationService.journal == old(operationService.journal)
    {
      var amount := request.amount;
      var withdrawn := WithdrawFrom(uuid, ewallet, amount);
      if withdrawn.Err? {
        return Threw(withdrawn.error);
      }
      WithdrawKeepsBalancesSound(old(Balances()), old(operationService.journal), now, uuid, amount);
      var saveOperationDto := OperationMapper.WithdrawToSaveDto(uuid, request, COMPLETED);
      StoredRecordSound(saveOperationDto, opUuid, now);
      SaveEwallets(saveOperationDto, [ewallet], opUuid, now);
      return Recorded(COMPLETED);
    }

    method DeclineWithdrawOperation(uuid: Uuid, request: WithdrawRequest, opUuid: Uuid, now: Timestamp)
      requires Valid()
      modifies operationService
      ensures Valid() && Balances() == old(Balances())
      ensures operationService.journal == old(operationService.journal)
        + [Stored(OperationMapper.WithdrawToSaveDto(uuid, request, DECLINED), opUuid, now)]
    {
      var saveOperationDto := OperationMapper.WithdrawToSaveDto(uuid, request, DECLINED);
      StoredRecordSound(saveOperationDto, opUuid, now);
      JournalAppend(operationService.journal, Stored(saveOperationDto, opUuid, now));
      operationService.Save(saveOperationDto, opUuid, now);
    }

    /** exceededDailyLimit: the amounts of the wallet's completed
        withdrawals of the last day, added up from zero in journal order,
        are above the daily limit. The amount being requested is not part
        of the sum. */
    method ExceededDailyLimit(uuid: Uuid, now: Timestamp) returns (r: bool)
      ensures r == ExceedsDailyLimit(Window(operationService.journal, uuid, now))
      ensures r <==> AmountTotal(Window(operationService.journal, uuid, now)) > 5000.0
    {
      var operations := operationService.LastDayWithdrawalsByWalletUuid(uuid, now);
      var lastDayOperationsAmount := Zero;
      for i := 0 to |operations|
        invariant Value(lastDayOperationsAmount) == AmountTotal(operations[..i])
      {
        assert operations[..i + 1] == operations[..i] + [operations[i]];
        AmountTotalAppend(operations[..i], operations[i]);
        lastDayOperationsAmount := Add(lastDayOperationsAmount, operations[i].amount);
      }
      assert operations[..|operations|] == operations;
      WholeValue(5000);
      return Compare(lastDayOperationsAmount, DailyWithdrawLimit) > 0;
    }

    /** makeTransaction as written: after the amount, source and balance
        checks the "destination" is looked up with the source's own id, so
        it is the source wallet itself, and that lookup cannot miss. */
    method MakeTransaction(uuid: Uuid, request: TransactionRequest, opUuid: Uuid, now: Timestamp) returns (outcome: Outcome)
      requires Valid()
      modifies this, operationService, wallets.Values
      ensures Valid() && wallets == old(wallets)
      ensures Decision(outcome, Balances()) == TransactionDecision(old(Balances()), uuid, request)
      ensures outcome.Recorded? ==>
        operationService.journal == old(operationService.journal)
          + [Stored(OperationMapper.TransactionToSaveDto(uuid, request, outcome.status), opUuid, now)]
      ensures outcome.Threw? ==> operationService.journal == old(operationService.journal)
    {
      var amount := request.amount;
      if !IsTransactionRequestValid(amount) {
        DeclineTransactionOperation(uuid, request, opUuid, now);
        return Recorded(DECLINED);
      }
      if uuid !in wallets {
        DeclineTransactionOperation(uuid, request, opUuid, now);
        return Recorded(DECLINED);
      }
      var sourceEwallet := wallets[uuid];
      if !sourceEwallet.IsEnoughBalance(amount) {
        DeclineTransactionOperation(uuid, request, opUuid, now);
        return Recorded(DECLINED);
      }
      var destinationWallet := wallets[uuid];
      outcome := CompleteTransaction(uuid, sourceEwallet, destinationWallet, request, opUuid, now);
    }

    /** The rest of makeTransaction as written: the amount is withdrawn from
        the source and deposited onto the "destination", which is the same
        wallet, then the completed record and both (one) wallets are saved. */
    method CompleteTransaction(uuid: Uuid, sourceEwallet: EwalletDto, destinationWallet: EwalletDto,
                               request: TransactionRequest, opUuid: Uuid, now: Timestamp) returns (outcome: Outcome)
      requires Valid() && IsTransactionRequestValid(request.amount)
      requires uuid in wallets && wallets[uuid] == sourceEwallet && destinationWallet == sourceEwallet
      requires Value(sourceEwallet.balance) >= Value(request.amount)
      modifies this, operationService, sourceEwallet
      ensures Valid() && wallets == old(wallets)
      ensures Decision(outcome, Balances()) == TransactionDecision(old(Balances()), uuid, request)
      ensures outcome.Recorded? ==>
        operationService.journal == old(operationService.journal)
          + [Stored(OperationMapper.TransactionToSaveDto(uuid, request, outcome.status), opUuid, now)]
      ensures outcome.Threw? ==> operationService.journal == old(operationService.journal)
    {
      var amount := request.amount;
      ghost var before := old(Balances());
      var withdrawn := WithdrawFrom(uuid, sourceEwallet, amount);
      if withdrawn.Err? {
        assert TransactionDecision(before, uuid, request) == Decision(Threw(withdrawn.error), before);
        return Threw(withdrawn.error);
      }
      WithdrawThenDeposit(before[uuid], amount);
      var deposited := DepositOnto(uuid, destinationWallet, amount);
      assert TransactionDecision(before, uuid, request) == Decision(Recorded(COMPLETED), Balances());
      TransactionKeepsBalancesSound(old(Balances()), uuid, request);
      var saveOperationDto := OperationMapper.TransactionToSaveDto(uuid, request, COMPLETED);
      StoredRecordSound(saveOperationDto, opUuid, now);
      SaveEwallets(saveOperationDto, [sourceEwallet, destinationWallet], opUuid, now);
      return Recorded(COMPLETED);
    }

    /** makeTransaction with the destination looked up by the request's
        destination id, as the request and the journal record intend:
        declined also when that wallet is missing; otherwise the amount
        moves from the source to that wallet. */
    method MakeTransactionToDestination(uuid: Uuid, request: TransactionRequest, opUuid: Uuid, now: Timestamp) returns (outcome: Outcome)
      requires Valid()
      modifies this, operationService, wallets.Values
      ensures Valid() && wallets == old(wallets)
      ensures Decision(outcome, Balances()) == TransferDecision(old(Balances()), uuid, request)
      ensures outcome.Recorded? ==>
        operationService.journal == old(operationService.journal)
          + [Stored(OperationMapper.TransactionToSaveDto(uuid, request, outcome.status), opUuid, now)]
      ensures outcome.Threw? ==> operationService.journal == old(operationService.journal)
    {
      var amount := request.amount;
      if !IsTransactionRequestValid(amount) {
        DeclineTransactionOperation(uuid, request, opUuid, now);
        return Recorded(DECLINED);
      }
      if uuid !in wallets {
        DeclineTransactionOperation(uuid, request, opUuid, now);
        return Recorded(DECLINED);
      }
      var sourceEwallet := wallets[uuid];
      if !sourceEwallet.IsEnoughBalance(amount) {
        DeclineTransactionOperation(uuid, request, opUuid, now);
        return Recorded(DECLINED);
      }
      if request.destinationWalletUuid !in wallets {
        DeclineTransactionOperation(uuid, request, opUuid, now);
        return Recorded(DECLINED);
      }
      var destinationWallet := wallets[request.destinationWalletUuid];
      outcome := CompleteTransfer(uuid, sourceEwallet, destinationWallet, request, opUuid, now);
    }

    /** The rest of the corrected transfer: the amount is withdrawn from the
        source and deposited onto the destination, then the completed record
        and both wallets are saved. */
    method CompleteTransfer(uuid: Uuid, sourceEwallet: EwalletDto, destinationWallet: EwalletDto,
                            request: TransactionRequest, opUuid: Uuid, now: Timestamp) returns (outcome: Outcome)
      requires Valid() && IsTransactionRequestValid(request.amount)
      requires uuid in wallets && wallets[uuid] == sourceEwallet
      requires request.destinationWalletUuid in wallets && wallets[request.destinationWalletUuid] == destinationWallet
      requires Value(sourceEwallet.balance) >= Value(request.amount)
      modifies this, operationService, sourceEwallet, destinationWallet
      ensures Valid() && wallets == old(wallets)
      ensures Decision(outcome, Balances()) == TransferDecision(old(Balances()), uuid, request)
      ensures outcome.Recorded? ==>
        operationService.journal == old(operationService.journal)
          + [Stored(OperationMapper.TransactionToSaveDto(uuid, request, outcome.status), opUuid, now)]
      ensures outcome.Threw? ==> operationService.journal == old(operationService.journal)
    {
      var withdrawn := MoveAmount(uuid, sourceEwallet, destinationWallet, request);
      if withdrawn.Err? {
        return Threw(withdrawn.error);
      }
      var saveOperationDto := OperationMapper.TransactionToSaveDto(uuid, request, COMPLETED);
      StoredRecordSound(saveOperationDto, opUuid, now);
      assert sourceEwallet.uuid == uuid && destinationWallet.uuid == request.destinationWalletUuid;
      SaveEwallets(saveOperationDto, [sourceEwallet, destinationWallet], opUuid, now);
      return Recorded(COMPLETED);
    }

    /** The two balance updates of the corrected transfer: the withdrawal
        from the source and, once it succeeds, the deposit onto the
        destination, which cannot fail then. */
    method MoveAmount(uuid: Uuid, sourceEwallet: EwalletDto, destinationWallet: EwalletDto, request: TransactionRequest)
        returns (withdrawn: Result<EwalletDto, Fault>)
      requires Valid() && IsTransactionRequestValid(request.amount)
      requires uuid in wallets && wallets[uuid] == sourceEwallet
      requires request.destinationWalletUuid in wallets && wallets[request.destinationWalletUuid] == destinationWallet
      requires Value(sourceEwallet.balance) >= Value(request.amount)
      modifies sourceEwallet, destinationWallet
      ensures Valid()
      ensures withdrawn.Err? ==>
        Decision(Threw(withdrawn.error), Balances()) == TransferDecision(old(Balances()), uuid, request)
      ensures withdrawn.Ok? ==>
        Decision(Recorded(COMPLETED), Balances()) == TransferDecision(old(Balances()), uuid, request)
    {
      var amount := request.amount;
      var destination := request.destinationWalletUuid;
      ghost var before := old(Balances());
      withdrawn := WithdrawFrom(uuid, sourceEwallet, amount);
      if withdrawn.Err? {
        assert TransferDecision(before, uuid, request) == Decision(Threw(withdrawn.error), before);
        return;
      }
      WithdrawSucceedsIffCentAmount(before[uuid], amount);
      DepositSucceedsIffCentAmount(Balances()[destination], amount);
      var deposited := DepositOnto(destination, destinationWallet, amount);
      assert TransferDecision(before, uuid, request) == Decision(Recorded(COMPLETED), Balances());
      TransferKeepsBalancesSound(before, uuid, request);
    }

    /** ewallet.deposit(amount) on the wallet stored under `uuid`: that
        wallet's balance is the only one that can change. */
    method DepositOnto(uuid: Uuid, ewallet: EwalletDto, amount: Dec) returns (r: Result<EwalletDto, Fault>)
      requires KeyedById() && uuid in wallets && wallets[uuid] == ewallet
      modifies ewallet
      ensures r.Ok? <==> DepositedBalance(old(Balances())[uuid], amount).Ok?
      ensures r.Ok? ==> Balances() == old(Balances())[uuid := DepositedBalance(old(Balances())[uuid], amount).value]
      ensures r.Err? ==> Balances() == old(Balances())
    {
      assert forall u | u in wallets && u != uuid :: wallets[u] != ewallet;
      r := ewallet.Deposit(amount);
      assert Balances() == old(Balances())[uuid := ewallet.balance];
    }

    /** ewallet.withdraw(amount) on the wallet stored under `uuid`: that
        wallet's balance is the only one that can change. */
    method WithdrawFrom(uuid: Uuid, ewallet: EwalletDto, amount: Dec) returns (r: Result<EwalletDto, Fault>)
      requires KeyedById() && uuid in wallets && wallets[uuid] == ewallet
      modifies ewallet
      ensures r.Ok? <==> WithdrawnBalance(old(Balances())[uuid], amount).Ok?
      ensures r.Ok? ==> Balances() == old(Balances())[uuid := WithdrawnBalance(old(Balances())[uuid], amount).value]
      ensures r.Err? ==> Balances() == old(Balances())
    {
      assert forall u | u in wallets && u != uuid :: wallets[u] != ewallet;
      r := ewallet.Withdraw(amount);
      assert Balances() == old(Balances())[uuid := ewallet.balance];
    }

    method DeclineTransactionOperation(uuid: Uuid, request: TransactionRequest, opUuid: Uuid, now: Timestamp)
      requires Valid()
      modifies operationService
      ensures Valid() && Balances() == old(Balances())
      ensures operationService.journal == old(operationService.journal)
        + [Stored(OperationMapper.TransactionToSaveDto(uuid, request, DECLINED), opUuid, now)]
    {
      var saveOperationDto := OperationMapper.TransactionToSaveDto(uuid, request, DECLINED);
      StoredRecordSound(saveOperationDto, opUuid, now);
      JournalAppend(operationService.journal, Stored(saveOperationDto, opUuid, now));
      operationService.Save(saveOperationDto, opUuid, now);
    }

    /** saveEwallets: the record is saved first, then every wallet of the
        list. The wallets are the store's own objects, so saving them again
        leaves the store as it is. */
    method SaveEwallets(saveOperationDto: SaveOperationDto, ws: seq<EwalletDto>, opUuid: Uuid, now: Timestamp)
      requires Valid() && RecordSound(Stored(saveOperationDto, opUuid, now))
      requires forall w | w in ws :: w.uuid in wallets && wallets[w.uuid] == w
      modifies this, operationService
      ensures Valid() && wallets == old(wallets) && Balances() == old(Balances())
      ensures operationService.journal == old(operationService.journal) + [Stored(saveOperationDto, opUuid, now)]
    {
      JournalAppend(operationService.journal, Stored(saveOperationDto, opUuid, now));
      operationService.Save(saveOperationDto, opUuid, now);
      for i := 0 to |ws|
        invariant wallets == old(wallets)
        invariant operationService.journal == old(operationService.journal) + [Stored(saveOperationDto, opUuid, now)]
      {
        wallets := wallets[ws[i].uuid := ws[i]];
      }
    }
  }
}
