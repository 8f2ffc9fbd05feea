/**
 * The asset ledger, seen from the game server only as request records and
 * oracle answers: the NATS request/reply wrappers themselves are not modelled.
 */
module Ledger {

  /** A blockchain wallet (address and secret), opaque to the game server. */
  datatype Wallet = Wallet(address: string, secret: string)

  /** What wallet creation yields when the ledger times out: the Go zero value. */
  const NoWallet := Wallet("", "")

  /** One card as the ledger lists it: its object identifier and its power. */
  datatype CardDto = CardDto(id: string, power: int)

  /** A request the game server sends to the ledger. */
  datatype LedgerRequest =
    | Transaction(source: Wallet, destination: Wallet, value: int)
    | MintCard(address: string, value: int)
    | LogMatch(winner: string, loser: string, valWin: int, valLose: int)
}
