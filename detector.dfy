/**
 * The detector façade (src/lib.rs): it orders a batch by timestamp, hands it to the
 * stream, and forgives every reported author when the parameters are replaced.
 */
module Detection {
  import opened Options
  import opened Chat
  import opened Params
  import opened Authors
  import opened Streams

  predicate SortedByTimestamp(s: seq<ChatAction>) {
    forall i, j :: 0 <= i < j < |s| ==> s[i].timestamp <= s[j].timestamp
  }

  /** A reordering of handled events holds only handled events. */
  lemma PermutationKeepsHandled(s: seq<ChatAction>, t: seq<ChatAction>)
    requires multiset(s) == multiset(t) && AllHandled(s)
    ensures AllHandled(t)
  {
    forall i | 0 <= i < |t|
      ensures Handled(t[i])
    {
      assert t[i] in multiset(t);
      var j :| 0 <= j < |s| && s[j] == t[i];
    }
  }

  /** The position of an earliest event in `a[from..]`. */
  method EarliestFrom(a: array<ChatAction>, from: nat) returns (m: nat)
    requires from < a.Length
    ensures from <= m < a.Length
    ensures forall k :: from <= k < a.Length ==> a[m].timestamp <= a[k].timestamp
  {
    m := from;
    for k := from + 1 to a.Length
      invariant from <= m < k
      invariant forall l :: from <= l < k ==> a[m].timestamp <= a[l].timestamp
    {
      if a[k].timestamp < a[m].timestamp {
        m := k;
      }
    }
  }

  method Swap(a: array<ChatAction>, i: nat, j: nat)
    requires i < a.Length && j < a.Length
    modifies a
    ensures a[i] == old(a[j]) && a[j] == old(a[i])
    ensures forall k :: 0 <= k < a.Length && k != i && k != j ==> a[k] == old(a[k])
    ensures multiset(a[..]) == multiset(old(a[..]))
  {
    a[i], a[j] := a[j], a[i];
  }

  /**
   * `sort_unstable_by_key` on the timestamp: afterwards the array is ordered by timestamp
   * and holds the same events. Nothing is promised about the order of events with equal
   * timestamps.
   */
  method SortByTimestamp(a: array<ChatAction>)
    modifies a
    ensures SortedByTimestamp(a[..])
    ensures multiset(a[..]) == multiset(old(a[..]))
  {
    for i := 0 to a.Length
      invariant multiset(a[..]) == multiset(old(a[..]))
      invariant forall k, l :: 0 <= k < l < i ==> a[k].timestamp <= a[l].timestamp
      invariant forall k, l :: 0 <= k < i <= l < a.Length ==> a[k].timestamp <= a[l].timestamp
    {
      var m := EarliestFrom(a, i);
      Swap(a, i, m);
    }
  }

  /**
   * `Detector`: the stream state and the current parameters. The registration-date
   * checker the source also stores is not part of this model.
   */
  class Detector<M> {
    const streamData: StreamData<M>
    var params: DetectorParams

    ghost predicate Valid()
      reads this, streamData, streamData.authors.Values
    {
      streamData.Valid()
    }

    constructor (params: DetectorParams)
      ensures Valid() && fresh(streamData)
      ensures this.params == params && streamData.Model() == EmptyStream()
    {
      this.params := params;
      streamData := new StreamData();
    }

    /**
     * `process_messages`: the batch is sorted in place by timestamp and the stream
     * processes exactly that order; the result is the set of reported message ids.
     */
    method ProcessMessages(ops: MessageOps<M>, actions: array<ChatAction>) returns (result: set<string>)
      requires Valid() && AllHandled(actions[..])
      modifies actions, streamData, streamData.authors.Values
      ensures Valid()
      ensures SortedByTimestamp(actions[..])
      ensures multiset(actions[..]) == multiset(old(actions[..]))
      ensures AllHandled(actions[..])
      ensures Stepped(streamData.Model(), result) == Process(ops, params, old(streamData.Model()), actions[..])
    {
      SortByTimestamp(actions);
      PermutationKeepsHandled(old(actions[..]), actions[..]);
      result := streamData.ProcessMessages(ops, params, actions[..]);
    }

    /** `set_slow_mode`: delegates; only the stream's slow-mode value changes. */
    method SetSlowMode(delay: nat)
      requires Valid()
      modifies streamData
      ensures Valid()
      ensures streamData.Model() == old(streamData.Model()).(slowMode := delay)
    {
      streamData.SetSlowMode(delay);
    }

    /**
     * `update_params`: the parameters are replaced and the report map emptied; author
     * statistics, immune authors and slow mode stay as they were.
     */
    method UpdateParams(newParams: DetectorParams)
      requires Valid()
      modifies this, streamData
      ensures Valid()
      ensures params == newParams
      ensures streamData.Model() == old(streamData.Model()).(authorsToReport := map[])
    {
      params := newParams;
      streamData.ClearAuthorsToReport();
    }

    function IsAuthorSpammer(author: string): (r: bool)
      requires Valid()
      reads this, streamData, streamData.authors.Values
      ensures r <==> author in streamData.Model().authorsToReport
      ensures r ==> author !in streamData.Model().superchatedAuthors
    {
      streamData.IsAuthorSpammer(author)
    }

    function GetSpammers(): (r: map<string, Reason>)
      requires Valid()
      reads this, streamData, streamData.authors.Values
      ensures r == streamData.Model().authorsToReport
      ensures r.Keys !! streamData.Model().superchatedAuthors
    {
      streamData.GetSpammers()
    }
  }
}
