/** Values shared by every component: bytes, machine integers, hashes and transactions. */
module Basics {

  const TWO_31: int := 0x8000_0000
  const TWO_32: int := 0x1_0000_0000
  const TWO_63: int := 0x8000_0000_0000_0000
  const TWO_64: int := 0x1_0000_0000_0000_0000

  type byte = b: int | 0 <= b < 256
  type bytes = seq<byte>
  type uint32 = n: int | 0 <= n < 0x1_0000_0000
  type uint64 = n: int | 0 <= n < 0x1_0000_0000_0000_0000

  const HASH_SIZE := 32

  type Hash = h: bytes | |h| == 32 witness seq(32, _ => 0)

  datatype Option<+T> = None | Some(value: T)

  datatype Result<+T, +E> = Ok(value: T) | Err(error: E)

  /** What the node observes of a transaction: its encoding and its hash. */
  datatype Tx = Tx(raw: bytes, hash: Hash)

  /** The parts of a consensus header that matter here. */
  datatype Header = Header(height: uint64, dataID: string, hash: string, annotation: bytes)

  datatype CommittedHeader = CommittedHeader(header: Header, proof: bytes)
}
