/** Protocol-wide limits and codes of the wire package. */
module WireConstants {
  import opened Primitives

  /** Object type code of a broadcast object. */
  const ObjectTypeBroadcast: uint32 := 3

  /** Largest payload of an object message: 2^18 bytes. */
  const MaxPayloadOfMsgObject: nat := 262144

  /** Largest number of inventory vectors in one inv or getdata message. */
  const MaxInvPerMsg: nat := 50000

  /** Size of one encoded inventory vector: a 32-byte hash. */
  const MaxInvVectPayload: nat := 32

  /** Capacity NewMsgGetData reserves for the inventory list. */
  const DefaultInvListAlloc: nat := 1000
}
