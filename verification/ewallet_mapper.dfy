/** Builders for new wallets. */
module EwalletMapper {
  import opened Wrappers
  import opened Decimal
  import opened Entities

  /** toEntity: the wallet row for a new wallet, with a zero balance and no
      owner set. */
  function ToEntity(saveEwalletDto: SaveEwalletDto): (e: Ewallet)
    ensures e.uuid == saveEwalletDto.uuid
    ensures Value(e.balance) == 0.0
    ensures e.customerUuid == None
  {
    Ewallet(saveEwalletDto.uuid, Zero, None)
  }

  /** toDto: the save DTO carrying exactly the given id. */
  function ToDto(uuid: Uuid): (dto: SaveEwalletDto)
    ensures dto.uuid == uuid
  {
    SaveEwalletDto(uuid)
  }

  /** The wallet created for an id has that id and an empty balance. */
  lemma NewWalletRoundTrip(uuid: Uuid)
    ensures ToEntity(ToDto(uuid)) == Ewallet(uuid, Zero, None)
    ensures Compare(ToEntity(ToDto(uuid)).balance, Zero) == 0
  {
  }
}
