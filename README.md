# detector_lib — a verified model of the spam-detection engine

This project models the deterministic core of `detector_lib`, a live-chat spam detector,
in Dafny. The model has four parts:

- **Per-author statistics** (`Authors`, src/author_data.rs). `AuthorData::check_message`
  runs its checks in a fixed order and stops at the first one that fires: slow mode, the
  average delay between messages, the average message length, and then the scan of the
  remembered message shapes for a similar one.
- **The stream state machine** (`Streams`, src/stream_data.rs). It holds the report map,
  the set of authors who sent a Support ("superchated", immune from then on), one
  `AuthorData` per author and the slow-mode value. It consumes an ordered list of chat
  events and returns the ids of the reported messages.
- **The threshold predicates** (`Params`, src/detector_params.rs) and **registration
  dates** with their lexicographic order (`RegDates`, src/reg_date.rs).
- **The detector façade** (`Detection`, src/lib.rs). It sorts a batch by timestamp in
  place, hands it to the stream, and forgives every reported author when the parameters
  are replaced.

The chat events of src/chat_action.rs are the datatype `Chat.ChatAction`.

Each object whose fields the source updates in place is a class: `AuthorData`,
`StreamData` and `Detector`. Each class has a ghost view of its state as a value:
`AuthorData.Snapshot()` gives an `AuthorStats`, and `StreamData.Model()` gives a
`StreamState`. Each method is proved to change that value exactly as a pure function
does:

- `Authors.Check` for `check_message`;
- `Streams.Step` for one event;
- `Streams.Process` for a list of events.

The lemmas beside those functions state what the source promises.

`MessageData` (message_data.rs) is not part of this model. Its type is the parameter `M`,
and the record `MessageOps<M>` supplies four functions:

- `create` for `MessageData::new`;
- `isSimilar`, the similarity test;
- `reconstruct`, the refresh on a match;
- `count`, the occurrence count.

Every result therefore holds for any similarity test. The emoji stripper (`emoji.rs`, a
regex) is the field `strip: string -> string` of `DetectorParams`, so the datatype's
constructor plays the part of `DetectorParams::new`.

Some behaviours of the code, stated explicitly:

- **The average delay.** It is a running mean truncated at every step. The first check
  divides the first delay by two, because the first message counts as a message but
  brings no delay. The result is not the floor of the mean of the delays
  (`Authors.AverageDelayDrifts` gives inputs where the two differ).
- **u32 arithmetic in the average delay.** The delay is the wrapping difference of the
  timestamps cut to 32 bits, and the running-mean sum and product wrap modulo 2^32, as in
  a release build. A message with an earlier timestamp than the author's last one
  gets a delay near 2^32. The average then comes out small only when the wrapped sum
  passes 2^32 again (`Authors.AverageDelayWraps`); otherwise it is about 2^32 divided
  by the message count (`Authors.AverageDelayWrapsHigh`).
- **Badges.** Any `Some` badge list exempts the message, including an empty list.
- **The sort.** It is `sort_unstable_by_key`: nothing is assumed about the order of
  equal timestamps.
- **Results and registration dates.** src/stream_data.rs returns a set of message ids.
  It makes no registration-date check and has no retraction branch. src/lib.rs calls it
  with a checker and expects a vector of results; that signature does not match the
  stream's own.

## Model

| member | source | states |
|---|---|---|
| Params.DetectorParams.IsTooFast | src/detector_params.rs:37-42 | the rate check: non-zero threshold, non-zero delay below it, and at least the minimum count; its properties are the `IsTooFast…` lemmas |
| Params.DetectorParams.SentTooManySimilarMessages | src/detector_params.rs:44-46 | the similarity check: the count has reached the threshold; see `SentTooManySimilarMessagesMonotone` |
| Params.DetectorParams.MessagesAreTooLong | src/detector_params.rs:48-52 | the length check: a non-zero message count reached and an average at or above the threshold; see `MessagesAreTooLongDisabled` |
| Params.DetectorParams.ShouldCheckMessage | src/detector_params.rs:54-56 | the comparison gate: a non-empty message of at least the minimum length; see `ShouldCheckMessageExactly` and `ShouldCheckMessageMonotone` |
| Params.DetectorParams.StripMessageFromEmoji | src/detector_params.rs:58-60 | applies the configured emoji stripper, an abstract text function |
| Params.IsTooFastNeedsNonZero | src/detector_params.rs:37-42 | the rate check never fires when the delay or the threshold is zero |
| Params.IsTooFastBounds | src/detector_params.rs:37-42 | when the rate check fires, the delay is strictly between zero and the threshold, and the count has reached the minimum |
| Params.IsTooFastMonotone | src/detector_params.rs:41 | a rate check that fires keeps firing for every larger count at the same delay |
| Params.SentTooManySimilarMessagesMonotone | src/detector_params.rs:44-46 | the similarity threshold check is monotone in the count |
| Params.MessagesAreTooLongDisabled | src/detector_params.rs:48-52 | a zero message count switches the length check off for every average and count |
| Params.ShouldCheckMessageExactly | src/detector_params.rs:54-56 | empty messages and messages shorter than the minimum are not compared; every other length is |
| Params.ShouldCheckMessageMonotone | src/detector_params.rs:55 | a length that is compared stays compared for every longer message |
| RegDates.New | src/reg_date.rs:12-18 | the date holds exactly the given year, month and day |
| RegDates.Default | src/reg_date.rs:49-56 | the default date is 1 October 2020 |
| RegDates.Eq | src/reg_date.rs:21-27 | field-wise equality holds exactly when the two dates are equal values |
| RegDates.PartialCmp | src/reg_date.rs:29-46 | the comparison is never `None`, and it is `Equal` exactly for equal dates |
| RegDates.Lexicographic | src/reg_date.rs:31-42 | the later year wins whatever the month and day; for equal years the month decides; for equal year and month the day decides |
| RegDates.PartialCmpMatchesKey | src/reg_date.rs:29-46 | the comparison agrees with comparing the dates packed into one number (year, month, day) |
| RegDates.Antisymmetric | src/reg_date.rs:29-46 | `a` is greater than `b` exactly when `b` is less than `a` |
| RegDates.Transitive | src/reg_date.rs:29-46 | two equal outcomes `a`–`b` and `b`–`c` give the same outcome for `a`–`c` |
| Authors.TimeDiff | src/author_data.rs:43 | the delay fits in 32 bits, and it is the exact difference whenever the new timestamp is not earlier and less than 2^32 seconds later |
| Authors.AverageDelay | src/author_data.rs:53-54 | the running mean of delays in u32 arithmetic; its properties are `AverageDelayBounds`, `AverageDelayDrifts`, `AverageDelayWraps` and `AverageDelayWrapsHigh` |
| Authors.AverageDelayBounds | src/author_data.rs:53-54 | the new average delay fits in 32 bits and is the floor of the wrapped sum over the count; it never exceeds the larger of the new delay and the old average, wrapped or not |
| Authors.AverageDelayWraps | src/author_data.rs:43-54 | a message one second earlier than the last, after a 5-second average over two messages, wraps the delay and the sum and gives an average of 3 |
| Authors.AverageDelayWrapsHigh | src/author_data.rs:43-54 | a second message one second before the first gives an average of 2^31 - 1, and a third one with a zero average gives 1431655765: without a second wrap the average is near 2^32 over the count |
| Authors.AverageDelayDrifts | src/author_data.rs:53-54 | on delays 1 and 2 the per-step truncation gives 0, while the floor of their mean is 1 |
| Authors.AverageLength | src/author_data.rs:59 | the running mean of message lengths, exact; its properties are `AverageLengthBetween` |
| Authors.AverageLengthBetween | src/author_data.rs:59 | the new average length lies between the new length and the old average, and it stays non-negative |
| Authors.InitialStats | src/author_data.rs:22-32 | a first message gives count 1, average delay 0, the given timestamp, one remembered shape for that message, and an average length equal to its character count |
| Authors.FirstSimilar | src/author_data.rs:70-72 | the index found is that of the first similar shape: no earlier shape is similar, and the index is the list's length when no shape is |
| Authors.BrokeSlowMode | src/author_data.rs:45-47 | slow mode is on and the delay is below it; see `CheckSlowModeFreezes` |
| Authors.Check | src/author_data.rs:41-44 | on every return path the count goes up by exactly one and the last timestamp becomes the new one |
| Authors.CheckKeepsInvariant | src/author_data.rs:41-88 | the check keeps at least one remembered shape, no more shapes than messages, an average delay below 2^32, and a non-negative average length |
| Authors.CheckSlowModeFreezes | src/author_data.rs:45-51 | the verdict is `SlowMode` exactly when slow mode is on and the delay is below it; the averages and the shapes are then unchanged |
| Authors.CheckAverageDelay | src/author_data.rs:53-54 | off the slow-mode path, the new average delay fits in 32 bits and is the truncated mean of the wrapped sum over the new count; it is always at most the larger of the delay and the old average |
| Authors.CheckPriority | src/author_data.rs:49-76 | `TooFast` only when slow mode stayed silent and the rate check held, carrying the new average; `TooLong` only when neither earlier check fired and the length check held, carrying the new average; `Similar` only when the scan was reached; a firing rate check always gives `TooFast`, and a firing length check after silent slow-mode and rate checks always gives `TooLong` |
| Authors.CheckSkipsShortMessages | src/author_data.rs:64-66 | a message too short to compare leaves the shapes untouched and is never `Similar`, and its verdict is `None` when no earlier check fired |
| Authors.CheckScan | src/author_data.rs:68-88 | when the scan is reached, only the first similar shape is refreshed and its count alone decides `Similar` versus `None`; with no similar shape the content is appended and the verdict is `None` |
| Authors.CheckTrackers | src/author_data.rs:68-88 | the shape list never shrinks and grows by at most one, and the only entry that can change is the first one similar to the content |
| Authors.AuthorData.constructor | src/author_data.rs:22-32 | a new author's fields are the statistics of their first message |
| Authors.AuthorData.CheckMessage | src/author_data.rs:34-89 | the in-place update leaves the statistics and returns the verdict that `Check` gives for the old statistics, and it keeps the statistics valid |
| Streams.EmptyStream | src/stream_data.rs:15-22 | a new stream has an empty report map, no immune authors, no authors and slow mode 0, and it satisfies the stream invariant |
| Streams.Step | src/stream_data.rs:31-69 | one event never shrinks the immune set or the author table and never changes slow mode; a message reports at most its own id, and a Support reports nothing |
| Streams.RecordCheck | src/stream_data.rs:50-55 | stores a known author's checked statistics and, when the check gives a reason, reports the id and records the author with it; see `StepChecksKnownAuthor` |
| Streams.Process | src/stream_data.rs:24-74 | a list of events never shrinks the immune set or the author table, keeps slow mode, and reports only ids of messages in the list |
| Streams.StepIgnoresExempt | src/stream_data.rs:39-41 | a message with badges, or from an immune author, changes nothing and reports nothing |
| Streams.StepReportsFlagged | src/stream_data.rs:43-46 | a message from a reported author reports its id and changes nothing else |
| Streams.StepFirstMessage | src/stream_data.rs:48-60 | an unseen author's first message adds their statistics, built from the raw content and the timestamp in seconds, and reports nothing |
| Streams.StepRecordsCheck | src/stream_data.rs:48-56 | a known author's message is checked on its stripped content and timestamp in seconds, and the outcome is recorded |
| Streams.StepChecksKnownAuthor | src/stream_data.rs:50-56 | for a known author, the id is reported and the author recorded with the reason exactly when the check gives one; the statistics become the check's |
| Streams.StepSupport | src/stream_data.rs:63-69 | a Support removes the author's report, makes them immune, keeps the author table and reports nothing |
| Streams.StepKeepsInvariant | src/stream_data.rs:39-69 | one event keeps report map and immune set disjoint and every author's statistics valid |
| Streams.StepKeepsReport | src/stream_data.rs:43-55 | a reported author stays reported with the same reason unless the event is their own Support |
| Streams.ProcessKeepsInvariant | src/stream_data.rs:24-74 | a whole list of events keeps the stream invariant |
| Streams.ImmuneNeverReported | src/stream_data.rs:39-41 | an author who sent a Support stays immune and is never reported by any later events |
| Streams.ProcessKeepsReport | src/stream_data.rs:24-74 | without a Support from them, a reported author stays reported with the same reason through any list of events |
| Streams.StreamData.ModelKeepsInvariant | src/stream_data.rs:7-12 | a valid stream object holds a state that satisfies the stream invariant |
| Streams.StreamData.constructor | src/stream_data.rs:15-22 | a new object holds the empty stream |
| Streams.StreamData.ProcessMessages | src/stream_data.rs:24-74 | the in-place loop leaves the state and returns the ids that `Process` gives for the old state and the events |
| Streams.StreamData.HandleEvent | src/stream_data.rs:31-70 | one event changes the object as `Step` does |
| Streams.StreamData.CheckAuthorMessage | src/stream_data.rs:48-61 | a message that is neither exempt nor reported changes the object as `Step` does |
| Streams.StreamData.AddAuthor | src/stream_data.rs:57-60 | an unseen author gets a fresh object holding the statistics of their first message; every other author keeps the same object, and nothing else in the state changes |
| Streams.StreamData.CheckKnownAuthor | src/stream_data.rs:50-56 | the author's own object is checked in place, and its outcome is recorded as `RecordCheck` does |
| Streams.StreamData.SetSlowMode | src/stream_data.rs:76-78 | only the slow-mode value changes |
| Streams.StreamData.ClearAuthorsToReport | src/stream_data.rs:80-82 | only the report map changes, and it becomes empty |
| Streams.StreamData.IsAuthorSpammer | src/stream_data.rs:84-86 | true exactly for keys of the report map, which are never immune |
| Streams.StreamData.GetSpammers | src/stream_data.rs:88-90 | the report map, whose authors are all outside the immune set |
| Detection.PermutationKeepsHandled | src/lib.rs:38-61 | a reordering of events the stream handles holds only handled events |
| Detection.EarliestFrom | src/lib.rs:38-57 | the position found holds an event whose timestamp is minimal in the rest of the array |
| Detection.Swap | src/lib.rs:38 | two positions exchange their events, the rest stay, and the contents are the same multiset |
| Detection.SortByTimestamp | src/lib.rs:38-57 | afterwards the array is ordered by timestamp, whatever the variant, and holds the same events |
| Detection.Detector.constructor | src/lib.rs:29-35 | the detector keeps the given parameters and a fresh, empty stream |
| Detection.Detector.ProcessMessages | src/lib.rs:37-63 | the batch is sorted in place and holds the same events, and the stream processes exactly that order |
| Detection.Detector.SetSlowMode | src/lib.rs:65-67 | only the stream's slow-mode value changes |
| Detection.Detector.UpdateParams | src/lib.rs:69-72 | the parameters are replaced and the report map emptied; author statistics, immune authors and slow mode stay |
| Detection.Detector.IsAuthorSpammer | src/lib.rs:74-76 | true exactly for the stream's reported authors, who are never immune |
| Detection.Detector.GetSpammers | src/lib.rs:78-80 | the stream's report map, disjoint from the immune set |

## Left out

- Authors.TimeDiff: it models `(timestamp - last) as u32` and the u32 sum and product of the running mean with release-build wrap-around. A debug build panics when a timestamp is earlier than the author's last one, or when the sum or product overflows; the model has no panic.
- Authors.AverageDelayBounds: the message count is an unbounded natural. The u32 `total_messages` would wrap after 2^32 messages from one author; the model does not capture that.
- Authors.AverageLengthBetween: `f32` arithmetic is modelled as exact reals. Rounding of the running mean and of the threshold cast in `messages_are_too_long` is not captured.
- Params.IsTooFastBounds: the counts are naturals. The source passes the u32 message count where a u16 is declared; no truncation is modelled.
- The remembered message shapes (`MessageData`: similarity, refresh, count) are abstract, because message_data.rs is not part of this model.
- Emoji stripping is an abstract text function, because it wraps a regex engine (emoji.rs).
- `RetractedMessage` events: the stream has no branch for them, so the stream and the detector require batches without them.
- `ProcessingResult` and the registration-date checker, cache and fallback date (reg_date_checker.rs, reg_date_loader.rs): the stream never uses them.
- `async`/`await` in `Detector::process_messages` becomes a plain call.
- Serialisation derives and the initial capacities of the hash maps are not behaviour.
