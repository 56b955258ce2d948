/** What a blocking receiver makes of the octets it holds of one framed message. */
module Framing {
  import ByteStrings

  /** It has `more` octets to receive in the current transfer, it holds a whole message, or
      it has given up. */
  datatype Frame = Need(more: nat) | Whole(body: ByteStrings.Bytes) | Bad

  /** How a call that took the octets `got` from `stream` may end: with 0 exactly when they
      make a whole message, with 1 only when the stream ended inside the message, with -1
      when the header is bad or, inside the message, when the kernel failed. */
  predicate Ended(frame: Frame, got: ByteStrings.Bytes, stream: ByteStrings.Bytes, rc: int) {
    match frame
    case Whole(_) => rc == 0
    case Bad => rc == -1
    case Need(_) => rc == -1 || (rc == 1 && got == stream)
  }

  /** An in/out length parameter (`size_t *`). */
  class Size {
    var value: nat
    constructor ()
      ensures value == 0
    {
      value := 0;
    }
  }
}
