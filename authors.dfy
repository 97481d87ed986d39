/**
 * Per-author statistics and the ordered, short-circuiting message check
 * (src/author_data.rs).
 *
 * The remembered message shapes (`MessageData`) are kept abstract: their type is the
 * parameter `M` and their behaviour is the record `MessageOps<M>`, so every result here
 * holds for any implementation of the similarity test, of the refresh on a match and of
 * the occurrence count.
 */
module Authors {
  import opened Options
  import opened Params

  /** Why a message was flagged. `TooLong` carries the (exact) average length. */
  datatype Reason = SlowMode | TooFast(avgDelay: nat) | TooLong(avgLength: real) | Similar

  /** The operations of `MessageData` that the check uses. */
  datatype MessageOps<!M> = MessageOps(
    create: string -> M,               // MessageData::new
    isSimilar: (M, string) -> bool,    // is_message_similar
    reconstruct: (M, string) -> M,     // reconstruct_message
    count: M -> nat)                   // count

  const U32_MODULUS: nat := 0x1_0000_0000

  /**
   * `(timestamp - last) as u32`: wrapping subtraction then truncation to 32 bits,
   * which is the Euclidean remainder of the exact difference.
   */
  function TimeDiff(timestamp: nat, last: nat): (d: nat)
    ensures d < U32_MODULUS
    ensures last <= timestamp < last + U32_MODULUS ==> d == timestamp - last
  {
    (timestamp - last) % U32_MODULUS
  }

  /**
   * The truncating running mean of delays after the `totalMessages`-th message, in u32
   * arithmetic as a release build does it: the product and the sum wrap modulo 2^32
   * before the division.
   */
  function AverageDelay(timeDiff: nat, totalMessages: nat, avgDelay: nat): nat
    requires totalMessages >= 1
  {
    var past: nat := (totalMessages - 1) * avgDelay;
    ((timeDiff + past) % U32_MODULUS) / totalMessages
  }

  /**
   * The new average is the floor of the wrapped sum over the count, so it fits in 32 bits.
   * Wrapping only lowers the sum, so the average never exceeds the larger of the new delay
   * and the previous mean.
   */
  lemma AverageDelayBounds(timeDiff: nat, n: nat, avg: nat)
    requires n >= 1
    ensures var r := AverageDelay(timeDiff, n, avg);
      var sum := (timeDiff + (n - 1) * avg) % U32_MODULUS;
      && r < U32_MODULUS
      && r * n <= sum < (r + 1) * n
      && r <= (if timeDiff > avg then timeDiff else avg)
  {
    var exact := timeDiff + (n - 1) * avg;
    var sum := exact % U32_MODULUS;
    var r := sum / n;
    assert AverageDelay(timeDiff, n, avg) == r;
    FloorDivision(sum, n);
    assert sum <= exact;
    MeanBelowMax(timeDiff, n, avg, r);
  }

  /** A count times a mean bounded by the sum stays below the larger of the two terms. */
  lemma MeanBelowMax(timeDiff: nat, n: nat, avg: nat, r: nat)
    requires n >= 1 && r * n <= timeDiff + (n - 1) * avg
    ensures r <= (if timeDiff > avg then timeDiff else avg)
  {
    var m := if timeDiff > avg then timeDiff else avg;
    assert (n - 1) * avg <= (n - 1) * m;
    assert timeDiff + (n - 1) * avg <= n * m;
    assert (r - m) * n <= 0;
  }

  /** Euclidean division of a natural by a positive count. */
  lemma FloorDivision(x: nat, n: nat)
    requires n >= 1
    ensures (x / n) * n <= x < (x / n + 1) * n
    ensures x / n <= x
  {
    var q := x / n;
    assert q * n <= x < q * n + n;
    assert (q + 1) * n == q * n + n;
    assert q <= q * n by { assert q * n == q + q * (n - 1); }
  }

  /**
   * An earlier timestamp wraps the delay to nearly 2^32, and the sum then wraps too: after
   * a 5-second average over two messages, a third message one second earlier gives an
   * average of 3.
   */
  lemma AverageDelayWraps()
    ensures TimeDiff(99, 100) == U32_MODULUS - 1
    ensures AverageDelay(TimeDiff(99, 100), 3, 5) == 3
  {
  }

  /**
   * When the wrapped sum does not pass 2^32 again the average lands near 2^32 over the
   * count: an author's second message one second before their first gives 2^31 - 1.
   */
  lemma AverageDelayWrapsHigh()
    ensures AverageDelay(TimeDiff(99, 100), 2, 0) == 0x7FFF_FFFF
    ensures AverageDelay(TimeDiff(99, 100), 3, 0) == 1431655765
  {
  }

  /**
   * Truncating at every step is not the floor of the mean of the delays: an author whose
   * first two delays are 1 and 2 seconds keeps an average of 0, where their mean is 1.
   */
  lemma AverageDelayDrifts()
    ensures AverageDelay(2, 3, AverageDelay(1, 2, 0)) == 0 != (1 + 2) / 2
  {
  }

  /** The exact running mean of message lengths (an `f32` in the source). */
  function AverageLength(len: nat, totalMessages: nat, avgLength: real): real
    requires totalMessages >= 1
  {
    (len as real + (totalMessages - 1) as real * avgLength) / totalMessages as real
  }

  /** The new mean length lies between the new length and the old mean. */
  lemma AverageLengthBetween(len: nat, n: nat, avg: real)
    requires n >= 1
    ensures var r := AverageLength(len, n, avg);
      && (len as real <= avg ==> len as real <= r <= avg)
      && (avg <= len as real ==> avg <= r <= len as real)
      && (avg >= 0.0 ==> r >= 0.0)
  {
    var r := AverageLength(len, n, avg);
    assert r * n as real == len as real + (n - 1) as real * avg;
  }

  /** The value of an `AuthorData`. */
  datatype AuthorStats<M> = AuthorStats(
    lastMessageTimestamp: nat,
    sentMessages: seq<M>,
    avgDelay: nat,
    totalMessages: nat,
    avgMessageLength: real)

  /**
   * What every author's statistics satisfy: at least one message and one remembered shape,
   * never more shapes than messages, an average delay that fits in a u32, and a
   * non-negative mean length.
   */
  predicate StatsInvariant<M>(s: AuthorStats<M>) {
    && 1 <= |s.sentMessages| <= s.totalMessages
    && s.avgDelay < U32_MODULUS
    && s.avgMessageLength >= 0.0
  }

  /** `AuthorData::new`: the statistics after an author's first message. */
  function InitialStats<M>(ops: MessageOps<M>, firstMessage: string, timestamp: nat): (s: AuthorStats<M>)
    ensures StatsInvariant(s)
    ensures s.totalMessages == 1 && s.avgDelay == 0 && s.lastMessageTimestamp == timestamp
    ensures s.sentMessages == [ops.create(firstMessage)]
    ensures s.avgMessageLength == |firstMessage| as real
  {
    AuthorStats(timestamp, [ops.create(firstMessage)], 0, 1, |firstMessage| as real)
  }

  /** The index of the first remembered shape similar to `content`, or `|messages|` if none is. */
  function FirstSimilar<M>(ops: MessageOps<M>, messages: seq<M>, content: string): (k: nat)
    ensures k <= |messages|
    ensures forall j :: 0 <= j < k ==> !ops.isSimilar(messages[j], content)
    ensures k < |messages| ==> ops.isSimilar(messages[k], content)
  {
    if messages == [] then 0
    else if ops.isSimilar(messages[0], content) then 0
    else 1 + FirstSimilar(ops, messages[1..], content)
  }

  /** The outcome of checking one message: the new statistics and the verdict. */
  datatype Checked<M> = Checked(stats: AuthorStats<M>, reason: Option<Reason>)

  predicate BrokeSlowMode<M>(s: AuthorStats<M>, timestamp: nat, slowMode: nat) {
    slowMode != 0 && TimeDiff(timestamp, s.lastMessageTimestamp) < slowMode
  }

  /**
   * `check_message` as a function of the old statistics. Every path counts the message
   * and records its timestamp; the checks run in the order slow mode, rate, length,
   * similarity, each one ending the check when it fires.
   */
  function Check<M>(ops: MessageOps<M>, s: AuthorStats<M>, timestamp: nat, content: string,
                    slowMode: nat, p: DetectorParams): (c: Checked<M>)
    ensures c.stats.totalMessages == s.totalMessages + 1
    ensures c.stats.lastMessageTimestamp == timestamp
  {
    var total := s.totalMessages + 1;
    var counted := s.(totalMessages := total, lastMessageTimestamp := timestamp);
    if BrokeSlowMode(s, timestamp, slowMode) then
      Checked(counted, Some(SlowMode))
    else
      var avgDelay := AverageDelay(TimeDiff(timestamp, s.lastMessageTimestamp), total, s.avgDelay);
      var timed := counted.(avgDelay := avgDelay);
      if p.IsTooFast(avgDelay, total) then
        Checked(timed, Some(TooFast(avgDelay)))
      else
        var avgLength := AverageLength(|content|, total, s.avgMessageLength);
        var measured := timed.(avgMessageLength := avgLength);
        if p.MessagesAreTooLong(avgLength, total) then
          Checked(measured, Some(TooLong(avgLength)))
        else if !p.ShouldCheckMessage(|content|) then
          Checked(measured, None)
        else
          var k := FirstSimilar(ops, s.sentMessages, content);
          if k < |s.sentMessages| then
            var refreshed := ops.reconstruct(s.sentMessages[k], content);
            var reason := if p.SentTooManySimilarMessages(ops.count(refreshed)) then Some(Similar) else None;
            Checked(measured.(sentMessages := s.sentMessages[k := refreshed]), reason)
          else
            Checked(measured.(sentMessages := s.sentMessages + [ops.create(content)]), None)
  }

  /** True when the check gets past slow mode, rate and length and compares shapes. */
  predicate ReachesScan<M>(s: AuthorStats<M>, timestamp: nat, content: string, slowMode: nat, p: DetectorParams) {
    var total := s.totalMessages + 1;
    && !BrokeSlowMode(s, timestamp, slowMode)
    && !p.IsTooFast(AverageDelay(TimeDiff(timestamp, s.lastMessageTimestamp), total, s.avgDelay), total)
    && !p.MessagesAreTooLong(AverageLength(|content|, total, s.avgMessageLength), total)
    && p.ShouldCheckMessage(|content|)
  }

  // ---------------------------------------------------------------------------------------
  // Properties of the check

  /** The check keeps the statistics invariant. */
  lemma CheckKeepsInvariant<M>(ops: MessageOps<M>, s: AuthorStats<M>, timestamp: nat, content: string,
                               slowMode: nat, p: DetectorParams)
    requires StatsInvariant(s)
    ensures StatsInvariant(Check(ops, s, timestamp, content, slowMode, p).stats)
  {
    AverageDelayBounds(TimeDiff(timestamp, s.lastMessageTimestamp), s.totalMessages + 1, s.avgDelay);
    AverageLengthBetween(|content|, s.totalMessages + 1, s.avgMessageLength);
  }

  /**
   * Slow mode fires exactly when it is on and the delay is below it, and then the check
   * freezes both averages and the remembered shapes.
   */
  lemma CheckSlowModeFreezes<M>(ops: MessageOps<M>, s: AuthorStats<M>, timestamp: nat, content: string,
                                slowMode: nat, p: DetectorParams)
    ensures var c := Check(ops, s, timestamp, content, slowMode, p);
      c.reason == Some(SlowMode) <==> slowMode != 0 && TimeDiff(timestamp, s.lastMessageTimestamp) < slowMode
    ensures var c := Check(ops, s, timestamp, content, slowMode, p);
      c.reason == Some(SlowMode) ==>
        && c.stats.avgDelay == s.avgDelay
        && c.stats.avgMessageLength == s.avgMessageLength
        && c.stats.sentMessages == s.sentMessages
  {
  }

  /**
   * Off the slow-mode path the new average delay is the truncated running mean over the
   * new message count of the wrapped u32 sum, and it never exceeds the larger of this
   * delay and the old average.
   */
  lemma CheckAverageDelay<M>(ops: MessageOps<M>, s: AuthorStats<M>, timestamp: nat, content: string,
                             slowMode: nat, p: DetectorParams)
    requires !BrokeSlowMode(s, timestamp, slowMode)
    ensures var c := Check(ops, s, timestamp, content, slowMode, p);
      var diff := TimeDiff(timestamp, s.lastMessageTimestamp);
      var sum := (diff + s.totalMessages * s.avgDelay) % U32_MODULUS;
      && c.stats.avgDelay < U32_MODULUS
      && c.stats.avgDelay * c.stats.totalMessages <= sum < (c.stats.avgDelay + 1) * c.stats.totalMessages
      && c.stats.avgDelay <= (if diff > s.avgDelay then diff else s.avgDelay)
  {
    AverageDelayBounds(TimeDiff(timestamp, s.lastMessageTimestamp), s.totalMessages + 1, s.avgDelay);
  }

  /**
   * The checks are tried in order and the first that fires decides: a verdict names a
   * check only when every earlier check stayed silent and that one held, and a rate or
   * length check that holds after silent earlier checks gives its verdict.
   */
  lemma CheckPriority<M>(ops: MessageOps<M>, s: AuthorStats<M>, timestamp: nat, content: string,
                         slowMode: nat, p: DetectorParams)
    ensures var c := Check(ops, s, timestamp, content, slowMode, p);
      c.reason.Some? && c.reason.value.TooFast? ==>
        && !BrokeSlowMode(s, timestamp, slowMode)
        && c.reason.value.avgDelay == c.stats.avgDelay
        && p.IsTooFast(c.stats.avgDelay, c.stats.totalMessages)
    ensures var c := Check(ops, s, timestamp, content, slowMode, p);
      c.reason.Some? && c.reason.value.TooLong? ==>
        && !BrokeSlowMode(s, timestamp, slowMode)
        && !p.IsTooFast(c.stats.avgDelay, c.stats.totalMessages)
        && c.reason.value.avgLength == c.stats.avgMessageLength
        && p.MessagesAreTooLong(c.stats.avgMessageLength, c.stats.totalMessages)
    ensures var c := Check(ops, s, timestamp, content, slowMode, p);
      c.reason == Some(Similar) ==> ReachesScan(s, timestamp, content, slowMode, p)
    ensures var c := Check(ops, s, timestamp, content, slowMode, p);
      !BrokeSlowMode(s, timestamp, slowMode) && p.IsTooFast(c.stats.avgDelay, c.stats.totalMessages) ==>
        c.reason == Some(TooFast(c.stats.avgDelay))
    ensures var c := Check(ops, s, timestamp, content, slowMode, p);
      (&& !BrokeSlowMode(s, timestamp, slowMode)
       && !p.IsTooFast(c.stats.avgDelay, c.stats.totalMessages)
       && p.MessagesAreTooLong(c.stats.avgMessageLength, c.stats.totalMessages)) ==>
        c.reason == Some(TooLong(c.stats.avgMessageLength))
  {
  }

  /** Messages too short to compare never reach the shapes: they are left as they were. */
  lemma CheckSkipsShortMessages<M>(ops: MessageOps<M>, s: AuthorStats<M>, timestamp: nat, content: string,
                                   slowMode: nat, p: DetectorParams)
    requires !p.ShouldCheckMessage(|content|)
    ensures var c := Check(ops, s, timestamp, content, slowMode, p);
      c.stats.sentMessages == s.sentMessages && c.reason != Some(Similar)
    ensures var c := Check(ops, s, timestamp, content, slowMode, p);
      (&& !BrokeSlowMode(s, timestamp, slowMode)
       && !p.IsTooFast(c.stats.avgDelay, c.stats.totalMessages)
       && !p.MessagesAreTooLong(c.stats.avgMessageLength, c.stats.totalMessages)) ==> c.reason == None
  {
  }

  /**
   * When the shapes are compared, only the first similar shape is refreshed and it alone
   * decides `Similar`; with no similar shape, the content is appended as a new shape.
   */
  lemma CheckScan<M>(ops: MessageOps<M>, s: AuthorStats<M>, timestamp: nat, content: string,
                     slowMode: nat, p: DetectorParams)
    requires ReachesScan(s, timestamp, content, slowMode, p)
    ensures var c := Check(ops, s, timestamp, content, slowMode, p);
      var k := FirstSimilar(ops, s.sentMessages, content);
      k < |s.sentMessages| ==>
        && (forall j :: 0 <= j < k ==> !ops.isSimilar(s.sentMessages[j], content))
        && ops.isSimilar(s.sentMessages[k], content)
        && c.stats.sentMessages == s.sentMessages[k := ops.reconstruct(s.sentMessages[k], content)]
        && (c.reason == Some(Similar) <==> p.SentTooManySimilarMessages(ops.count(c.stats.sentMessages[k])))
        && (c.reason == None <==> !p.SentTooManySimilarMessages(ops.count(c.stats.sentMessages[k])))
    ensures var c := Check(ops, s, timestamp, content, slowMode, p);
      (forall j :: 0 <= j < |s.sentMessages| ==> !ops.isSimilar(s.sentMessages[j], content)) ==>
        && c.stats.sentMessages == s.sentMessages + [ops.create(content)]
        && c.reason == None
  {
  }

  /**
   * The list of shapes only grows, by at most one entry, and at most one existing entry
   * changes: the first one similar to the content.
   */
  lemma CheckTrackers<M>(ops: MessageOps<M>, s: AuthorStats<M>, timestamp: nat, content: string,
                         slowMode: nat, p: DetectorParams)
    ensures var c := Check(ops, s, timestamp, content, slowMode, p);
      |s.sentMessages| <= |c.stats.sentMessages| <= |s.sentMessages| + 1
    ensures var c := Check(ops, s, timestamp, content, slowMode, p);
      forall j :: 0 <= j < |s.sentMessages| && c.stats.sentMessages[j] != s.sentMessages[j] ==>
        && j == FirstSimilar(ops, s.sentMessages, content)
        && ops.isSimilar(s.sentMessages[j], content)
  {
  }

  // ---------------------------------------------------------------------------------------
  // The mutable object

  /** `AuthorData`: one author's statistics, updated in place by each checked message. */
  class AuthorData<M> {
    var lastMessageTimestamp: nat
    var sentMessages: seq<M>
    var avgDelay: nat
    var totalMessages: nat
    var avgMessageLength: real

    ghost function Snapshot(): AuthorStats<M>
      reads this
    {
      AuthorStats(lastMessageTimestamp, sentMessages, avgDelay, totalMessages, avgMessageLength)
    }

    ghost predicate Valid()
      reads this
    {
      StatsInvariant(Snapshot())
    }

    constructor (ops: MessageOps<M>, firstMessage: string, messageTimestamp: nat)
      ensures Valid()
      ensures Snapshot() == InitialStats(ops, firstMessage, messageTimestamp)
    {
      lastMessageTimestamp := messageTimestamp;
      sentMessages := [ops.create(firstMessage)];
      avgDelay := 0;
      totalMessages := 1;
      avgMessageLength := |firstMessage| as real;
    }

    /** `check_message`: updates the statistics in place and returns the verdict. */
    method CheckMessage(ops: MessageOps<M>, timestamp: nat, content: string, currentSlowMode: nat,
                        detectorParams: DetectorParams) returns (reason: Option<Reason>)
      requires Valid()
      modifies this
      ensures Valid()
      ensures Checked(Snapshot(), reason) == Check(ops, old(Snapshot()), timestamp, content, currentSlowMode, detectorParams)
    {
      ghost var before := Snapshot();
      CheckKeepsInvariant(ops, before, timestamp, content, currentSlowMode, detectorParams);
      totalMessages := totalMessages + 1;

      var timeDiff := TimeDiff(timestamp, lastMessageTimestamp);
      lastMessageTimestamp := timestamp;
      var brokeSlowMode := currentSlowMode != 0 && timeDiff < currentSlowMode;
      if brokeSlowMode {
        return Some(SlowMode);
      }

      var total := totalMessages;
      avgDelay := AverageDelay(timeDiff, total, avgDelay);
      if detectorParams.IsTooFast(avgDelay, totalMessages) {
        return Some(TooFast(avgDelay));
      }

      avgMessageLength := AverageLength(|content|, total, avgMessageLength);
      if detectorParams.MessagesAreTooLong(avgMessageLength, totalMessages) {
        return Some(TooLong(avgMessageLength));
      }

      if !detectorParams.ShouldCheckMessage(|content|) {
        return None;
      }

      var foundSimilarMessage := false;
      var i := 0;
      while i < |sentMessages|
        invariant i <= |sentMessages|
        invariant sentMessages == before.sentMessages
        invariant forall j :: 0 <= j < i ==> !ops.isSimilar(sentMessages[j], content)
      {
        if ops.isSimilar(sentMessages[i], content) {
          assert FirstSimilar(ops, before.sentMessages, content) == i;
          foundSimilarMessage := true;
          sentMessages := sentMessages[i := ops.reconstruct(sentMessages[i], content)];
          if detectorParams.SentTooManySimilarMessages(ops.count(sentMessages[i])) {
            return Some(Similar);
          }
          break;
        }
        i := i + 1;
      }

      if !foundSimilarMessage {
        assert FirstSimilar(ops, before.sentMessages, content) == |before.sentMessages|;
        sentMessages := sentMessages + [ops.create(content)];
      }
      return None;
    }
  }
}
