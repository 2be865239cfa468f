/** Names and paths. A name is kept as the octets it was written with. */
module Identity {
  import opened Bytes

  const MAX_IDENTITY_LENGTH := 128
  const PATH_SEPARATOR: byte := 0x7C

  type Name = bytes

  predicate IsControl(c: byte) {
    c < 0x20 || c == 0x7F
  }

  /** What the validating constructor of a name accepts. */
  predicate ValidName(s: bytes) {
    && 0 < |s| <= MAX_IDENTITY_LENGTH
    && forall i :: 0 <= i < |s| ==> !IsControl(s[i])
  }

  /** Device and port names also keep clear of the path separator. */
  predicate ValidPathName(s: bytes) {
    ValidName(s) && PATH_SEPARATOR !in s
  }

  /** A name that may be absent; an absent name is empty. */
  predicate ValidOptionalName(s: bytes) {
    s == [] || ValidName(s)
  }

  datatype QueuePath = QueuePath(device: Name, port: Name, queue: u32) {
    /** The index takes no part: queue zero is an ordinary queue. */
    predicate Valid() {
      device != [] && port != []
    }
  }
}
