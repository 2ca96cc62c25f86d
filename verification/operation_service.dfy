/** The audit journal: every request's operation record is appended here,
    flagged when it is a large transfer, and the daily-limit query reads it
    back. */
module OperationJournal {
  import opened Wrappers
  import opened Decimal
  import opened Entities
  import OperationMapper
  import OperationDao

  /** FLAGGED_AMOUNT */
  const FlaggedAmount := Dec(10000, 0)

  /** One day in milliseconds: the length of the rolling window. */
  const Day: int := 86400000

  /** isSuspicious: a transfer strictly above the flagged amount. */
  function IsSuspicious(op: Operation): (r: bool)
    ensures r <==> op.operationType == TRANSACTION && Value(op.amount) > 10000.0
  {
    op.operationType == TRANSACTION && Compare(op.amount, FlaggedAmount) > 0
  }

  /** The record `save` stores for `dto`: the mapped entity with its fresh
      id, its suspicious flag decided, and stamped with the time of the
      insert. */
  function Stored(dto: SaveOperationDto, opUuid: Uuid, now: Timestamp): (op: Operation)
    ensures OperationMapper.SaveDtoOf(op) == dto && op.uuid == opUuid
    ensures op.suspicious <==> dto.operationType == TRANSACTION && Value(dto.amount) > 10000.0
    ensures op.createdDate == Some(now)
  {
    var entity := OperationMapper.ToEntity(dto, opUuid);
    entity.(suspicious := IsSuspicious(entity), createdDate := Some(now))
  }

  /** The cutoff of the rolling window: one day before `now`. */
  function Cutoff(now: Timestamp): (t: Timestamp)
    ensures now - t == Day
  {
    now - Day
  }

  /** The withdrawals the daily limit looks at: wallet `uuid`'s completed
      withdrawals of the last day before `now`, in journal order. */
  function Window(journal: seq<Operation>, uuid: Uuid, now: Timestamp): seq<Operation>
  {
    OperationDao.LastDayWithdrawalsByWalletUuidAndLock(journal, uuid, Cutoff(now))
  }

  lemma SuspiciousBoundIsStrict(op: Operation)
    requires op.operationType == TRANSACTION
    ensures op.amount == Dec(10000, 0) ==> !IsSuspicious(op)
    ensures op.amount == Dec(9999, 0) ==> !IsSuspicious(op)
    ensures op.amount == Dec(10001, 0) ==> IsSuspicious(op)
    ensures op.amount == Dec(1000001, 2) ==> IsSuspicious(op)
  {
  }

  lemma OnlyTransfersAreSuspicious(op: Operation)
    requires op.operationType != TRANSACTION
    ensures !IsSuspicious(op)
  {
  }

  class OperationService {
    /** The operation store, in insertion order. */
    var journal: seq<Operation>

    constructor ()
      ensures journal == []
    {
      journal := [];
    }

    /** save: map the DTO to an entity with the fresh id `opUuid`, set its
        suspicious flag when it is a large transfer, and append it; the store
        stamps it with `now`. */
    method Save(saveOperationDto: SaveOperationDto, opUuid: Uuid, now: Timestamp)
      modifies this
      ensures journal == old(journal) + [Stored(saveOperationDto, opUuid, now)]
    {
      var operation := OperationMapper.ToEntity(saveOperationDto, opUuid);
      if IsSuspicious(operation) {
        operation := operation.(suspicious := true);
      }
      journal := journal + [operation.(createdDate := Some(now))];
    }

    /** lastDayWithdrawalsByWalletUuid: the completed withdrawals of wallet
        `uuid` created within the last day before `now`. */
    function LastDayWithdrawalsByWalletUuid(uuid: Uuid, now: Timestamp): (r: seq<Operation>)
      reads this
      ensures forall op :: op in r <==>
        && op in journal && op.ewalletUuid == uuid
        && op.operationType == WITHDRAWAL && op.operationStatus == COMPLETED
        && op.createdDate.Some? && op.createdDate.value > now - Day
    {
      Window(journal, uuid, now)
    }
  }
}
