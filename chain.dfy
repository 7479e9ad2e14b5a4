/** The values the vault-positions pipeline reads from the chain gateway. */
module Chain {
  import opened Wrappers

  /** A participant field of a Transfer event as JavaScript sees it: an address
      string, `null`, or `undefined` (an argument the event does not carry). */
  datatype Participant = Addr(hex: string) | Null | Undefined

  /** The exact string that the holder builder deletes as the zero address. */
  const ZERO_ADDRESS: Participant := Addr("0x0000000000000000000000000000000000000000")

  /** The decoded arguments of a Transfer log. */
  datatype TransferArgs = TransferArgs(sender: Participant, receiver: Participant)

  /** A Transfer log; `args` is None when the log could not be decoded. */
  datatype TransferEvent = TransferEvent(blockNumber: nat, args: Option<TransferArgs>)

  /** An inclusive block range `[lo, hi]` handed to one log query. */
  datatype BlockRange = BlockRange(lo: nat, hi: nat)

  /** The error a failed gateway call raises. */
  datatype RpcError = RpcError(message: string)

  /** The log query of the gateway, bound to the vault and its Transfer
      filter: the events of the inclusive range [from, to], or the error. */
  type LogQuery = (nat, nat) -> Result<seq<TransferEvent>, RpcError>

  /** `balanceOf(address)` at the target block: None when the call throws. */
  type BalanceQuery = Participant -> Option<nat>

  /** One entry of the result: a holder and its share balance. */
  datatype Position = Position(address: Participant, balance: nat)
}
