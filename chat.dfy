/**
 * The decoded chat events consumed by the detector (src/chat_action.rs).
 * Serialisation is not modelled; only the shape of the values is.
 */
module Chat {
  import opened Options

  /** Badges of a message's author; any badge list exempts that one message. */
  datatype Badge = Member | Verified | Owner | Moderator

  /**
   * One chat event. Timestamps are in milliseconds (u64 in the source, unbounded here).
   * Every variant carries `timestamp`, the key the detector sorts a batch by.
   */
  datatype ChatAction =
    | Message(id: string, author: string, timestamp: nat, content: string,
              badges: Option<seq<Badge>>, contextParams: string)
    | Support(author: string, timestamp: nat)
    | RetractedMessage(author: string, timestamp: nat)
}
