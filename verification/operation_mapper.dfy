/** Builders that turn a request into the journal's save DTO, and a save DTO
    into an operation entity. */
module OperationMapper {
  import opened Wrappers
  import opened Entities

  /** The save DTO an operation entity was built from: every field the
      entity copies. */
  function SaveDtoOf(op: Operation): SaveOperationDto
  {
    SaveOperationDto(op.amount, op.operationType, op.description, op.ewalletUuid,
                     op.destinationWalletUuid, op.operationStatus)
  }

  /** toEntity: `uuid` stands for the fresh random id. The suspicious flag
      and the creation date are left for the journal to decide. */
  function ToEntity(dto: SaveOperationDto, uuid: Uuid): (op: Operation)
    ensures SaveDtoOf(op) == dto
    ensures op.uuid == uuid
    ensures !op.suspicious && op.createdDate == None
  {
    Operation(uuid, dto.amount, dto.operationType, dto.operationStatus, dto.description,
              false, dto.walletUuid, dto.destinationWalletUuid, None)
  }

  /** toSaveDto for a deposit request. */
  function DepositToSaveDto(uuid: Uuid, request: DepositRequest, status: OperationStatus): (dto: SaveOperationDto)
    ensures dto.operationType == DEPOSIT && dto.destinationWalletUuid == None
    ensures DepositRequest(dto.amount, dto.description) == request
    ensures dto.walletUuid == uuid && dto.operationStatus == status
  {
    SaveOperationDto(request.amount, DEPOSIT, request.description, uuid, None, status)
  }

  /** toSaveDto for a withdrawal request. */
  function WithdrawToSaveDto(uuid: Uuid, request: WithdrawRequest, status: OperationStatus): (dto: SaveOperationDto)
    ensures dto.operationType == WITHDRAWAL && dto.destinationWalletUuid == None
    ensures WithdrawRequest(dto.amount, dto.description) == request
    ensures dto.walletUuid == uuid && dto.operationStatus == status
  {
    SaveOperationDto(request.amount, WITHDRAWAL, request.description, uuid, None, status)
  }

  /** toSaveDto for a transfer request: the destination comes from the
      request, the source is the wallet the request was addressed to. */
  function TransactionToSaveDto(uuid: Uuid, request: TransactionRequest, status: OperationStatus): (dto: SaveOperationDto)
    ensures dto.operationType == TRANSACTION
    ensures dto.destinationWalletUuid.Some?
    ensures TransactionRequest(dto.amount, dto.destinationWalletUuid.value, dto.description) == request
    ensures dto.walletUuid == uuid && dto.operationStatus == status
  {
    SaveOperationDto(request.amount, TRANSACTION, request.description, uuid,
                     Some(request.destinationWalletUuid), status)
  }
}
