/** The journal query behind the daily withdrawal limit: the completed
    withdrawals of one wallet created after a cutoff instant. */
module OperationDao {
  import opened Wrappers
  import opened Entities

  /** The WHERE clause of the query. A record without a creation date fails
      the comparison, as a NULL does in SQL. */
  predicate InWindow(op: Operation, uuid: Uuid, lastDay: Timestamp)
  {
    && op.ewalletUuid == uuid
    && op.operationType == WITHDRAWAL
    && op.createdDate.Some? && op.createdDate.value > lastDay
    && op.operationStatus == COMPLETED
  }

  /** lastDayWithdrawalsByWalletUuidAndLock: the records of `ops` that satisfy
      the WHERE clause, in journal order. */
  function LastDayWithdrawalsByWalletUuidAndLock(ops: seq<Operation>, uuid: Uuid, lastDay: Timestamp): (r: seq<Operation>)
    ensures forall op :: op in r <==> op in ops && InWindow(op, uuid, lastDay)
    ensures multiset(r) <= multiset(ops)
    decreases |ops|
  {
    if ops == [] then []
    else
      var init, last := ops[..|ops| - 1], ops[|ops| - 1];
      assert ops == init + [last];
      var rest := LastDayWithdrawalsByWalletUuidAndLock(init, uuid, lastDay);
      if InWindow(last, uuid, lastDay) then rest + [last] else rest
  }

  /** Appending one record to the journal extends the query's answer by that
      record exactly when the record matches. */
  lemma WindowAppend(ops: seq<Operation>, op: Operation, uuid: Uuid, lastDay: Timestamp)
    ensures LastDayWithdrawalsByWalletUuidAndLock(ops + [op], uuid, lastDay)
         == LastDayWithdrawalsByWalletUuidAndLock(ops, uuid, lastDay)
            + (if InWindow(op, uuid, lastDay) then [op] else [])
  {
    assert (ops + [op])[..|ops + [op]| - 1] == ops;
  }

  /** The repository test's cases: a completed withdrawal stamped at `c` is
      found with cutoffs 1, 5 and 23 hours before `c` and missed with cutoffs
      2 and 3 days after it; the same record as a deposit, or declined, is
      never found. */
  lemma WindowScenarios(op: Operation, c: Timestamp)
    requires op.operationType == WITHDRAWAL && op.operationStatus == COMPLETED
    requires op.createdDate == Some(c)
    ensures forall h | h in [1, 5, 23] ::
      LastDayWithdrawalsByWalletUuidAndLock([op], op.ewalletUuid, c - h * 3600000) == [op]
    ensures forall d | d in [2, 3] ::
      LastDayWithdrawalsByWalletUuidAndLock([op], op.ewalletUuid, c + d * 86400000) == []
    ensures LastDayWithdrawalsByWalletUuidAndLock([op.(operationType := DEPOSIT)], op.ewalletUuid, c - 1) == []
    ensures LastDayWithdrawalsByWalletUuidAndLock([op.(operationStatus := DECLINED)], op.ewalletUuid, c - 1) == []
  {
  }
}
