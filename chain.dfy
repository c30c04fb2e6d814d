/**
 The part of the blockchain that the address book sees: fixed-width integers,
 20-byte addresses, and a block reduced to its beneficiary and the two
 address-bearing fields of each transaction. The remote provider is a total
 function from a block number to the response the RPC call would give.
 */
module Chain {

  datatype Option<+T> = None | Some(value: T)

  /** An unsigned 8-bit value, one byte of an address. */
  newtype byte = x: int | 0 <= x < 0x100

  /** An unsigned 64-bit value, the type of the block height. */
  newtype u64 = x: int | 0 <= x < 0x1_0000_0000_0000_0000

  const MaxU64: u64 := 0xFFFF_FFFF_FFFF_FFFF

  /** An account address: exactly 20 bytes, compared byte for byte. */
  type Address = s: seq<byte> | |s| == 20
    witness [0, 0, 0, 0, 0, 0, 0, 0, 0, 0, 0, 0, 0, 0, 0, 0, 0, 0, 0, 0]

  /** A transaction, reduced to its sender and its optional recipient
      (absent for a contract creation). */
  datatype Transaction = Transaction(from: Address, to: Option<Address>)

  /** A block fetched with full transactions, reduced to what the book reads. */
  datatype Block = Block(beneficiary: Address, transactions: seq<Transaction>)

  /** What a request for one block number can give back: the call succeeds
      with a block or with nothing, or fails. */
  datatype Response = Ok(block: Option<Block>) | Failed

  /** The provider, as the response it gives for each block number. */
  type Provider = u64 -> Response
}
