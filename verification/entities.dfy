/** The records the ledger stores and exchanges: wallets, operations and the
    request and save DTOs that carry data between the service and the
    stores. Ids are opaque integers; timestamps are milliseconds. */
module Entities {
  import opened Wrappers
  import opened Decimal

  type Uuid = int

  type Timestamp = int

  /** The entity enums and their DTO twins share their constant names, and
      the mappers convert between them by name; one type stands for both. */
  datatype OperationType = DEPOSIT | WITHDRAWAL | TRANSACTION

  datatype OperationStatus = COMPLETED | DECLINED

  datatype DepositRequest = DepositRequest(amount: Dec, description: Option<string>)

  datatype WithdrawRequest = WithdrawRequest(amount: Dec, description: Option<string>)

  datatype TransactionRequest =
    TransactionRequest(amount: Dec, destinationWalletUuid: Uuid, description: Option<string>)

  /** What the service hands to the journal; the destination is present only
      for transfers. */
  datatype SaveOperationDto = SaveOperationDto(
    amount: Dec,
    operationType: OperationType,
    description: Option<string>,
    walletUuid: Uuid,
    destinationWalletUuid: Option<Uuid>,
    operationStatus: OperationStatus)

  /** One journal record. `createdDate` is None until the store stamps it. */
  datatype Operation = Operation(
    uuid: Uuid,
    amount: Dec,
    operationType: OperationType,
    operationStatus: OperationStatus,
    description: Option<string>,
    suspicious: bool,
    ewalletUuid: Uuid,
    destinationWalletUuid: Option<Uuid>,
    createdDate: Option<Timestamp>)

  datatype SaveEwalletDto = SaveEwalletDto(uuid: Uuid)

  /** A wallet row as the mapper builds it; `customerUuid` may be unset. */
  datatype Ewallet = Ewallet(uuid: Uuid, balance: Dec, customerUuid: Option<Uuid>)
}
