/**
 * The values the queue moves around. Messages are opaque: the queue never
 * looks inside them, it only asks for their size and hands them to the
 * (de)serialiser, which is taken to round-trip every message unchanged.
 */
module Messages {

  /** A log message; `size` is what the message reports as its memory footprint. */
  datatype Msg = Msg(body: string, size: nat)

  /** Delivery-path options; only the "ack needed" flag matters to the queue. */
  datatype PathOptions = PathOptions(ackNeeded: bool)

  /**
   * What deserialising the bytes read back from the store produced. A failed
   * deserialisation still yields a message: whatever the deserialiser had
   * filled into the fresh, empty message before it gave up.
   */
  datatype Decoding = Intact | Garbled(partial: Msg)

  function Decode(stored: Msg, d: Decoding): Msg
  {
    match d
    case Intact => stored
    case Garbled(partial) => partial
  }
}
