/**
 * The stream-level state machine (src/stream_data.rs): the report map, the authors who
 * sent a Support, the per-author statistics and the slow-mode value, driven by an ordered
 * list of events.
 */
module Streams {
  import opened Options
  import opened Chat
  import opened Params
  import opened Authors

  /** The value of a `StreamData`. */
  datatype StreamState<M> = StreamState(
    authorsToReport: map<string, Reason>,
    superchatedAuthors: set<string>,
    authors: map<string, AuthorStats<M>>,
    slowMode: nat)

  /**
   * What the stream keeps true: nobody is both reported and immune, and every tracked
   * author's statistics satisfy their own invariant.
   */
  predicate StreamInvariant<M>(s: StreamState<M>) {
    && s.authorsToReport.Keys !! s.superchatedAuthors
    && forall a :: a in s.authors ==> StatsInvariant(s.authors[a])
  }

  /** `StreamData::new`. */
  function EmptyStream<M>(): (s: StreamState<M>)
    ensures StreamInvariant(s)
    ensures s.authorsToReport == map[] && s.superchatedAuthors == {} && s.authors == map[]
    ensures s.slowMode == 0
  {
    StreamState(map[], {}, map[], 0)
  }

  /** The stream handles messages and Support events; it has no branch for retractions. */
  predicate Handled(e: ChatAction) {
    e.Message? || e.Support?
  }

  predicate AllHandled(events: seq<ChatAction>) {
    forall i :: 0 <= i < |events| ==> Handled(events[i])
  }

  /** The ids of the messages among `events`. */
  function MessageIds(events: seq<ChatAction>): set<string> {
    set i | 0 <= i < |events| && events[i].Message? :: events[i].id
  }

  /** The new state and the ids of the messages reported. */
  datatype Stepped<M> = Stepped(state: StreamState<M>, ids: set<string>)

  /**
   * One event. A message with badges (even an empty list) or from an immune author is
   * ignored; a message from a reported author is reported again without being checked;
   * an unseen author's first message only starts their statistics (from the raw content);
   * any other message is checked on its stripped content, and reported when the check
   * gives a reason. A Support forgives the author and makes them immune.
   */
  function Step<M>(ops: MessageOps<M>, p: DetectorParams, s: StreamState<M>, e: ChatAction): (r: Stepped<M>)
    requires Handled(e)
    ensures r.state.superchatedAuthors >= s.superchatedAuthors
    ensures r.state.authors.Keys >= s.authors.Keys
    ensures r.state.slowMode == s.slowMode
    ensures e.Message? ==> r.ids <= {e.id}
    ensures e.Support? ==> r.ids == {}
  {
    match e
    case Message(id, author, timestamp, content, badges, _) =>
      if badges.Some? || author in s.superchatedAuthors then
        Stepped(s, {})
      else if author in s.authorsToReport then
        Stepped(s, {id})
      else
        var seconds := timestamp / 1000;
        if author in s.authors then
          RecordCheck(s, author, id,
                      Check(ops, s.authors[author], seconds, p.StripMessageFromEmoji(content), s.slowMode, p))
        else
          Stepped(s.(authors := s.authors[author := InitialStats(ops, content, seconds)]), {})
    case Support(author, _) =>
      Stepped(s.(authorsToReport := s.authorsToReport - {author},
                 superchatedAuthors := s.superchatedAuthors + {author}), {})
  }

  /**
   * A tracked author's checked message: the new statistics are stored, and a reason both
   * reports the message and records the author.
   */
  function RecordCheck<M>(s: StreamState<M>, author: string, id: string, c: Checked<M>): Stepped<M> {
    var checked := s.(authors := s.authors[author := c.stats]);
    if c.reason.Some? then
      Stepped(checked.(authorsToReport := s.authorsToReport[author := c.reason.value]), {id})
    else
      Stepped(checked, {})
  }

  /** `process_messages`: the events in list order, with the reported ids collected. */
  function Process<M>(ops: MessageOps<M>, p: DetectorParams, s: StreamState<M>, events: seq<ChatAction>): (r: Stepped<M>)
    requires AllHandled(events)
    ensures r.state.superchatedAuthors >= s.superchatedAuthors
    ensures r.state.authors.Keys >= s.authors.Keys
    ensures r.state.slowMode == s.slowMode
    ensures r.ids <= MessageIds(events)
    decreases |events|
  {
    if events == [] then
      Stepped(s, {})
    else
      var last := |events| - 1;
      var before := Process(ops, p, s, events[..last]);
      var after := Step(ops, p, before.state, events[last]);
      assert MessageIds(events[..last]) <= MessageIds(events) by {
        forall i | 0 <= i < last && events[..last][i].Message?
          ensures events[..last][i].id in MessageIds(events)
        {
          assert events[..last][i] == events[i];
        }
      }
      Stepped(after.state, before.ids + after.ids)
  }

  // ---------------------------------------------------------------------------------------
  // One event

  /** A message with badges, or from an author who sent a Support, changes nothing. */
  lemma StepIgnoresExempt<M>(ops: MessageOps<M>, p: DetectorParams, s: StreamState<M>, e: ChatAction)
    requires e.Message? && (e.badges.Some? || e.author in s.superchatedAuthors)
    ensures Step(ops, p, s, e) == Stepped(s, {})
  {
  }

  /** A reported author's message is reported again and their statistics are not touched. */
  lemma StepReportsFlagged<M>(ops: MessageOps<M>, p: DetectorParams, s: StreamState<M>, e: ChatAction)
    requires e.Message? && e.badges.None? && e.author !in s.superchatedAuthors
    requires e.author in s.authorsToReport
    ensures Step(ops, p, s, e) == Stepped(s, {e.id})
  {
  }

  /**
   * An unseen author's first message adds their statistics, seeded with the raw content
   * and the timestamp in seconds, and reports nothing.
   */
  lemma StepFirstMessage<M>(ops: MessageOps<M>, p: DetectorParams, s: StreamState<M>, e: ChatAction)
    requires e.Message? && e.badges.None? && e.author !in s.superchatedAuthors
    requires e.author !in s.authorsToReport && e.author !in s.authors
    ensures Step(ops, p, s, e) ==
      Stepped(s.(authors := s.authors[e.author := InitialStats(ops, e.content, e.timestamp / 1000)]), {})
  {
  }

  /** A tracked author's message is checked against their statistics and recorded. */
  lemma StepRecordsCheck<M>(ops: MessageOps<M>, p: DetectorParams, s: StreamState<M>, e: ChatAction)
    requires e.Message? && e.badges.None? && e.author !in s.superchatedAuthors
    requires e.author !in s.authorsToReport && e.author in s.authors
    ensures Step(ops, p, s, e) == RecordCheck(s, e.author, e.id,
      Check(ops, s.authors[e.author], e.timestamp / 1000, p.StripMessageFromEmoji(e.content), s.slowMode, p))
  {
  }

  /**
   * A known, unreported author's message is checked on its stripped content; the id is
   * reported, and the author recorded with the reason, exactly when the check gives one.
   */
  lemma StepChecksKnownAuthor<M>(ops: MessageOps<M>, p: DetectorParams, s: StreamState<M>, e: ChatAction)
    requires e.Message? && e.badges.None? && e.author !in s.superchatedAuthors
    requires e.author !in s.authorsToReport && e.author in s.authors
    ensures var r := Step(ops, p, s, e);
      var c := Check(ops, s.authors[e.author], e.timestamp / 1000, p.StripMessageFromEmoji(e.content), s.slowMode, p);
      && r.state.authors == s.authors[e.author := c.stats]
      && r.state.superchatedAuthors == s.superchatedAuthors
      && (e.id in r.ids <==> c.reason.Some?)
      && (c.reason.Some? ==> r.state.authorsToReport == s.authorsToReport[e.author := c.reason.value])
      && (c.reason.None? ==> r.state.authorsToReport == s.authorsToReport)
  {
  }

  /** A Support removes the author's report and makes them immune; nothing is reported. */
  lemma StepSupport<M>(ops: MessageOps<M>, p: DetectorParams, s: StreamState<M>, e: ChatAction)
    requires e.Support?
    ensures var r := Step(ops, p, s, e);
      && r.state.authorsToReport == s.authorsToReport - {e.author}
      && r.state.superchatedAuthors == s.superchatedAuthors + {e.author}
      && r.state.authors == s.authors
      && r.ids == {}
  {
  }

  lemma StepKeepsInvariant<M>(ops: MessageOps<M>, p: DetectorParams, s: StreamState<M>, e: ChatAction)
    requires Handled(e) && StreamInvariant(s)
    ensures StreamInvariant(Step(ops, p, s, e).state)
  {
    if e.Message? && e.badges.None? && e.author !in s.superchatedAuthors && e.author !in s.authorsToReport
       && e.author in s.authors {
      CheckKeepsInvariant(ops, s.authors[e.author], e.timestamp / 1000, p.StripMessageFromEmoji(e.content), s.slowMode, p);
    }
  }

  /** A reported author stays reported, with the same reason, until they send a Support. */
  lemma StepKeepsReport<M>(ops: MessageOps<M>, p: DetectorParams, s: StreamState<M>, e: ChatAction, a: string)
    requires Handled(e) && a in s.authorsToReport && !(e.Support? && e.author == a)
    ensures var r := Step(ops, p, s, e);
      a in r.state.authorsToReport && r.state.authorsToReport[a] == s.authorsToReport[a]
  {
  }

  // ---------------------------------------------------------------------------------------
  // A list of events

  lemma {:induction false} ProcessKeepsInvariant<M>(ops: MessageOps<M>, p: DetectorParams, s: StreamState<M>,
                                                    events: seq<ChatAction>)
    requires AllHandled(events) && StreamInvariant(s)
    ensures StreamInvariant(Process(ops, p, s, events).state)
    decreases |events|
  {
    if events != [] {
      var last := |events| - 1;
      ProcessKeepsInvariant(ops, p, s, events[..last]);
      StepKeepsInvariant(ops, p, Process(ops, p, s, events[..last]).state, events[last]);
    }
  }

  /**
   * An author who sent a Support is never reported again by any later events, and stays
   * immune.
   */
  lemma ImmuneNeverReported<M>(ops: MessageOps<M>, p: DetectorParams, s: StreamState<M>,
                               events: seq<ChatAction>, a: string)
    requires AllHandled(events) && StreamInvariant(s) && a in s.superchatedAuthors
    ensures var r := Process(ops, p, s, events).state;
      a in r.superchatedAuthors && a !in r.authorsToReport
  {
    ProcessKeepsInvariant(ops, p, s, events);
  }

  /** Without a Support from them, a reported author stays reported with the same reason. */
  lemma {:induction false} ProcessKeepsReport<M>(ops: MessageOps<M>, p: DetectorParams, s: StreamState<M>,
                                                 events: seq<ChatAction>, a: string)
    requires AllHandled(events) && a in s.authorsToReport
    requires forall i :: 0 <= i < |events| ==> !(events[i].Support? && events[i].author == a)
    ensures var r := Process(ops, p, s, events).state;
      a in r.authorsToReport && r.authorsToReport[a] == s.authorsToReport[a]
    decreases |events|
  {
    if events != [] {
      var last := |events| - 1;
      ProcessKeepsReport(ops, p, s, events[..last], a);
      StepKeepsReport(ops, p, Process(ops, p, s, events[..last]).state, events[last], a);
    }
  }

  // ---------------------------------------------------------------------------------------
  // The mutable object

  /** `StreamData`: owns one `AuthorData` object per author, updated in place. */
  class StreamData<M> {
    var authorsToReport: map<string, Reason>
    var superchatedAuthors: set<string>
    var authors: map<string, AuthorData<M>>
    var slowMode: nat
    /** The statistics held by each author's object. */
    ghost var stats: map<string, AuthorStats<M>>

    ghost function Model(): StreamState<M>
      reads this
    {
      StreamState(authorsToReport, superchatedAuthors, stats, slowMode)
    }

    /**
     * Each author owns their own object, whose statistics are valid and recorded in
     * `stats`, and nobody is both reported and immune; together these give the stream
     * invariant of `Model()`.
     */
    ghost predicate Valid()
      reads this, authors.Values
    {
      && authors.Keys == stats.Keys
      && (forall a :: a in authors ==> authors[a].Valid() && authors[a].Snapshot() == stats[a])
      && (forall a, b :: a in authors && b in authors && a != b ==> authors[a] != authors[b])
      && authorsToReport.Keys !! superchatedAuthors
    }

    /** A valid object holds a stream state that satisfies the stream invariant. */
    lemma ModelKeepsInvariant()
      requires Valid()
      ensures StreamInvariant(Model())
    {
      forall a | a in stats
        ensures StatsInvariant(stats[a])
      {
        assert authors[a].Valid();
      }
    }

    constructor ()
      ensures Valid() && Model() == EmptyStream()
    {
      authorsToReport := map[];
      superchatedAuthors := {};
      authors := map[];
      slowMode := 0;
      stats := map[];
    }

    /** `process_messages`: updates the stream in place and returns the reported ids. */
    method ProcessMessages(ops: MessageOps<M>, detectorParams: DetectorParams, messages: seq<ChatAction>)
      returns (result: set<string>)
      requires Valid() && AllHandled(messages)
      modifies this, authors.Values
      ensures Valid()
      ensures Stepped(Model(), result) == Process(ops, detectorParams, old(Model()), messages)
      ensures forall a :: a in authors ==> authors[a] in old(authors.Values) || fresh(authors[a])
    {
      result := {};
      for i := 0 to |messages|
        invariant Valid()
        invariant forall a :: a in authors ==> authors[a] in old(authors.Values) || fresh(authors[a])
        invariant Stepped(Model(), result) == Process(ops, detectorParams, old(Model()), messages[..i])
      {
        assert messages[..i + 1][..i] == messages[..i];
        var ids := HandleEvent(ops, detectorParams, messages[i]);
        result := result + ids;
      }
      assert messages[..|messages|] == messages;
    }

    /** The body of the loop in `process_messages`: one event, in place. */
    method HandleEvent(ops: MessageOps<M>, detectorParams: DetectorParams, message: ChatAction)
      returns (ids: set<string>)
      requires Valid() && Handled(message)
      modifies this, authors.Values
      ensures Valid()
      ensures Stepped(Model(), ids) == Step(ops, detectorParams, old(Model()), message)
      ensures forall a :: a in authors ==> authors[a] in old(authors.Values) || fresh(authors[a])
    {
      match message
      case Message(id, author, _, _, badges, _) =>
        if badges.Some? || author in superchatedAuthors {
          StepIgnoresExempt(ops, detectorParams, Model(), message);
          ids := {};
        } else if author in authorsToReport {
          StepReportsFlagged(ops, detectorParams, Model(), message);
          ids := {id};
        } else {
          ids := CheckAuthorMessage(ops, detectorParams, message);
        }
      case Support(author, _) =>
        StepSupport(ops, detectorParams, Model(), message);
        authorsToReport := authorsToReport - {author};
        superchatedAuthors := superchatedAuthors + {author};
        ids := {};
    }

    /**
     * A message from an author who is neither exempt nor reported: their first message
     * starts their statistics, any later one is checked.
     */
    method CheckAuthorMessage(ops: MessageOps<M>, detectorParams: DetectorParams, message: ChatAction)
      returns (ids: set<string>)
      requires Valid() && message.Message? && message.badges.None?
      requires message.author !in superchatedAuthors && message.author !in authorsToReport
      modifies this, authors.Values
      ensures Valid()
      ensures Stepped(Model(), ids) == Step(ops, detectorParams, old(Model()), message)
      ensures forall a :: a in authors ==> authors[a] in old(authors.Values) || fresh(authors[a])
    {
      if message.author in authors {
        StepRecordsCheck(ops, detectorParams, Model(), message);
        ghost var outcome;
        ids, outcome := CheckKnownAuthor(ops, detectorParams, message);
      } else {
        StepFirstMessage(ops, detectorParams, Model(), message);
        AddAuthor(ops, message.author, message.content, message.timestamp / 1000);
        ids := {};
      }
    }

    /** The first message of an author who is not tracked yet starts their statistics. */
    method AddAuthor(ops: MessageOps<M>, author: string, firstMessage: string, timestamp: nat)
      requires Valid() && author !in authors
      modifies this
      ensures Valid()
      ensures Model() == old(Model()).(authors := old(Model()).authors[author := InitialStats(ops, firstMessage, timestamp)])
      ensures author in authors && fresh(authors[author])
      ensures authors == old(authors)[author := authors[author]]
    {
      var authorData := new AuthorData(ops, firstMessage, timestamp);
      assert forall a :: a in authors ==> authors[a] != authorData;
      authors := authors[author := authorData];
      stats := stats[author := authorData.Snapshot()];
    }

    /**
     * A later message from a tracked author: it is checked in place, and `outcome` is the
     * check's value-level result, which the stream then records.
     */
    method CheckKnownAuthor(ops: MessageOps<M>, detectorParams: DetectorParams, message: ChatAction)
      returns (ids: set<string>, ghost outcome: Checked<M>)
      requires Valid() && message.Message? && message.author in authors
      requires message.author !in superchatedAuthors
      modifies this, authors.Values
      ensures Valid()
      ensures outcome == Check(ops, old(Model()).authors[message.author], message.timestamp / 1000,
                               detectorParams.StripMessageFromEmoji(message.content), old(Model()).slowMode, detectorParams)
      ensures Stepped(Model(), ids) == RecordCheck(old(Model()), message.author, message.id, outcome)
      ensures forall a :: a in authors ==> authors[a] in old(authors.Values)
    {
      var author, id := message.author, message.id;
      var cleanedContent := detectorParams.StripMessageFromEmoji(message.content);
      var authorData := authors[author];
      var reason := authorData.CheckMessage(ops, message.timestamp / 1000, cleanedContent, slowMode, detectorParams);
      outcome := Checked(authorData.Snapshot(), reason);
      stats := stats[author := authorData.Snapshot()];
      ids := {};
      if reason.Some? {
        authorsToReport := authorsToReport[author := reason.value];
        ids := {id};
      }
    }

    /** `set_slow_mode`: only the slow-mode value changes. */
    method SetSlowMode(newDelay: nat)
      requires Valid()
      modifies this
      ensures Valid()
      ensures Model() == old(Model()).(slowMode := newDelay)
    {
      slowMode := newDelay;
    }

    /** `clear_authors_to_report`: only the report map changes, to empty. */
    method ClearAuthorsToReport()
      requires Valid()
      modifies this
      ensures Valid()
      ensures Model() == old(Model()).(authorsToReport := map[])
    {
      authorsToReport := map[];
    }

    /** `is_author_spammer`: reported authors are exactly the keys of the report map, and never immune. */
    function IsAuthorSpammer(author: string): (r: bool)
      requires Valid()
      reads this, authors.Values
      ensures r <==> author in Model().authorsToReport
      ensures r ==> author !in Model().superchatedAuthors
    {
      author in authorsToReport
    }

    /** `get_spammers`: the report map, whose authors are all outside the immune set. */
    function GetSpammers(): (r: map<string, Reason>)
      requires Valid()
      reads this, authors.Values
      ensures r == Model().authorsToReport
      ensures r.Keys !! Model().superchatedAuthors
    {
      authorsToReport
    }
  }
}
