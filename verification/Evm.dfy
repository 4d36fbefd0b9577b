/** The parts of the execution environment that the two rental contracts rely on:
    word-sized integers, account addresses, and calls that either succeed or revert. */
module Evm {
  const UINT256_LIMIT: int := 0x1_0000_0000_0000_0000_0000_0000_0000_0000_0000_0000_0000_0000_0000_0000_0000_0000

  type uint256 = x: int | 0 <= x < UINT256_LIMIT

  type Address = x: int | 0 <= x < 0x1_0000_0000_0000_0000_0000_0000_0000_0000_0000_0000

  /** Why a call reverts. The first three are the contracts' own `require` messages;
      the last is the panic of checked arithmetic in Solidity 0.8. */
  datatype Reason = AlreadyRenting | NftNotAvailable | NoActiveRental | ArithmeticOverflow

  /** A reverted call leaves the state as it was and reports its reason. */
  datatype Outcome<+T> = Ok(value: T) | Revert(reason: Reason)

  datatype Option<+T> = None | Some(value: T)
}
