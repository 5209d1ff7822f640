/** The packet pool and the packet record of internal/stream/types.go. */
module Packets {
  type byte = x: int | 0 <= x < 256

  const PACKET_VIDEO: byte := 0x09

  /** What a packet carries: the four exported fields, with `data` the bytes in `Data[:len]`. */
  datatype Content = Content(kind: byte, timestamp: nat, keyframe: bool, data: seq<byte>)

  /** A video keyframe starts a new group of pictures. */
  predicate StartsGop(c: Content) {
    c.kind == PACKET_VIDEO && c.keyframe
  }
}
