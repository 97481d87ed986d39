/**
 * The detection thresholds and the four threshold predicates (src/detector_params.rs).
 * All counts are natural numbers here: the source mixes u16, u32 and usize for them.
 */
module Params {

  /**
   * The detector's configuration. `strip` stands for the compiled emoji regex
   * (`regex_patterns`): a deterministic text-to-text function whose definition is not
   * part of this model.
   */
  datatype DetectorParams = DetectorParams(
    avgTimeThreshold: nat,
    avgTimeMinMessageCount: nat,
    similarMessagesThreshold: nat,
    minMessageLen: nat,
    avgMessageLengthThreshold: nat,
    avgMessageLengthMessageCount: nat,
    strip: string -> string)
  {
    /** Average delay below a non-zero threshold, once enough messages were sent. */
    predicate IsTooFast(currentDelay: nat, sentMessagesCount: nat) {
      && avgTimeThreshold != 0
      && currentDelay != 0
      && currentDelay < avgTimeThreshold
      && sentMessagesCount >= avgTimeMinMessageCount
    }

    predicate SentTooManySimilarMessages(similarMessagesCount: nat) {
      similarMessagesCount >= similarMessagesThreshold
    }

    /** A zero message count switches the length check off. */
    predicate MessagesAreTooLong(currentAverageMessageLength: real, sentMessagesCount: nat) {
      && avgMessageLengthMessageCount != 0
      && sentMessagesCount >= avgMessageLengthMessageCount
      && currentAverageMessageLength >= avgMessageLengthThreshold as real
    }

    /** Only non-empty messages of at least `minMessageLen` characters are compared. */
    predicate ShouldCheckMessage(messageLen: nat) {
      messageLen != 0 && messageLen >= minMessageLen
    }

    function StripMessageFromEmoji(message: string): string {
      strip(message)
    }
  }

  /** The rate check never fires when the delay or the threshold is zero. */
  lemma IsTooFastNeedsNonZero(p: DetectorParams, delay: nat, count: nat)
    requires delay == 0 || p.avgTimeThreshold == 0
    ensures !p.IsTooFast(delay, count)
  {
  }

  /** A firing rate check bounds the delay strictly between zero and the threshold. */
  lemma IsTooFastBounds(p: DetectorParams, delay: nat, count: nat)
    requires p.IsTooFast(delay, count)
    ensures 0 < delay < p.avgTimeThreshold && count >= p.avgTimeMinMessageCount
  {
  }

  /** More messages at the same average delay cannot make the rate check stop firing. */
  lemma IsTooFastMonotone(p: DetectorParams, delay: nat, count: nat, count': nat)
    requires p.IsTooFast(delay, count) && count <= count'
    ensures p.IsTooFast(delay, count')
  {
  }

  lemma SentTooManySimilarMessagesMonotone(p: DetectorParams, c: nat, c': nat)
    requires p.SentTooManySimilarMessages(c) && c <= c'
    ensures p.SentTooManySimilarMessages(c')
  {
  }

  /** With a zero message count the length check is off for every average and count. */
  lemma MessagesAreTooLongDisabled(p: DetectorParams, avg: real, count: nat)
    requires p.avgMessageLengthMessageCount == 0
    ensures !p.MessagesAreTooLong(avg, count)
  {
  }

  /** A length that is compared stays compared when the message is longer. */
  lemma ShouldCheckMessageMonotone(p: DetectorParams, len: nat, len': nat)
    requires p.ShouldCheckMessage(len) && len <= len'
    ensures p.ShouldCheckMessage(len')
  {
  }

  /** Empty and short messages are never compared; every other length is. */
  lemma ShouldCheckMessageExactly(p: DetectorParams, len: nat)
    ensures len == 0 ==> !p.ShouldCheckMessage(len)
    ensures len < p.minMessageLen ==> !p.ShouldCheckMessage(len)
    ensures len != 0 && len >= p.minMessageLen ==> p.ShouldCheckMessage(len)
  {
  }
}
