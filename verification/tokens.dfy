/**
  Types of the bridge's `tokens` package used by swap-in verification: the
  typed rejection errors, the token configuration and the swap record that the
  verification pipeline fills in.
 */
module Tokens {

  /** The typed errors a swap-in verification can end with. */
  datatype SwapError =
    | ErrTxWithWrongContract
    | ErrTxWithWrongReceiver
    | ErrDepositLogNotFound
    | ErrTxWithWrongSender
    | ErrTxWithWrongValue
    | ErrUnknownPairID
    | ErrTxWithWrongMemo
    | ErrTxSenderNotRegistered
    | ErrRPCQueryError
    | ErrBindAddrIsContract

  /** Only a failed contract-code query asks the caller to retry later. */
  predicate IsTransient(e: SwapError) {
    e == ErrRPCQueryError
  }

  /** A Go `error` return: `nil` is `Pass`. */
  datatype Outcome = Pass | Fail(error: SwapError)

  datatype Result<+T> = Success(value: T) | Failure(error: SwapError)

  /** The fields of a token configuration the swap-in path reads. */
  datatype TokenConfig = TokenConfig(
    contractAddress: string,
    depositAddress: string,
    allowSwapinFromContract: bool)

  /** `TxSwapInfo`: the record the verification stages fill in. */
  datatype SwapInfo = SwapInfo(
    pairID: string,
    hash: string,
    height: nat,
    timestamp: nat,
    from: string,
    txTo: string,
    to: string,
    bind: string,
    value: nat)

  /** The fields an upstream collector fills and that verification never writes. */
  predicate SameOrigin(a: SwapInfo, b: SwapInfo) {
    a.pairID == b.pairID && a.hash == b.hash && a.height == b.height && a.timestamp == b.timestamp
  }
}
