/** The values exchanged by the components of the fork detector. */
module Entities {

  newtype byte = x: int | 0 <= x < 256
  type Bytes = seq<byte>

  /** A block ID: a 32-byte digest or a 64-byte signature. The core treats it as an opaque value. */
  datatype BlockId = BlockId(bytes: Bytes)

  /** An IP address without a zone. */
  datatype Addr = V4(bytes: Bytes) | V6(bytes: Bytes)

  /** The one address that the scan over all leashes stops before. */
  const ALL_ONES := V6([255, 255, 255, 255, 255, 255, 255, 255, 255, 255, 255, 255, 255, 255, 255, 255])

  datatype Leash = Leash(addr: Addr, blockId: BlockId)

  type Generator = Bytes

  /** The fields of a key-block that the detector looks at. */
  datatype ProtoBlock = ProtoBlock(id: BlockId, parent: BlockId, target: nat, generator: Generator)

  /** The announcement of a micro-block: the new total block and the block it extends. */
  datatype MicroBlockInv = MicroBlockInv(totalId: BlockId, reference: BlockId)

  /** Everything that can go wrong. `Panic` stands for a Go run-time panic: the process dies, nothing is written. */
  datatype Error = NotFound | ParentNotFound | RefNotFound | InvalidId | NoTransition | Panic

  datatype Option<+T> = None | Some(value: T)

  datatype Result<+T> = Success(value: T) | Failure(error: Error) {
    predicate IsFailure() { Failure? }
    function PropagateFailure<U>(): Result<U>
      requires Failure?
    {
      Failure(error)
    }
    function Extract(): T
      requires Success?
    {
      value
    }
  }

  type Outcome = Result<()>

  const PASS: Outcome := Success(())

  /** Block heights are 32-bit. */
  const MAX_HEIGHT: nat := 0xFFFF_FFFF

  /** Larger base targets make the score computation panic. */
  const MAX_TARGET: nat := 0x7FFF_FFFF_FFFF_FFFF
}
