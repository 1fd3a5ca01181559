// IndexGcsPrefix of the GKE indexing workers
// (getting-started-gke/index_gcs_prefix.cc and getting-started/gke/index_gcs.cc,
// which hold the same function): one Pub/Sub message names a bucket and
// optionally a prefix and a start offset; the worker lists that level of the
// bucket, republishes every sub-prefix, hands every object to the batcher,
// splits the work with a continuation message once five minutes have passed,
// and acks the message only when everything it started succeeded.
module PrefixDispatch {
  import opened Wrappers
  import opened GcsIndexing
  import opened MutationBatching

  /** Pub/Sub message attributes. */
  type Attributes = map<string, string>

  /** One entry of ListObjectsAndPrefixes with a "/" delimiter: a sub-prefix,
      an object, or the error the listing stopped with. */
  datatype ListEntry =
    | PrefixEntry(prefix: string)
    | ObjectEntry(metadata: ObjectMetadata)
    | ListError(status: Status)

  /** The name a continuation starts from: the prefix itself or the object name. */
  function EntryName(e: ListEntry): string
    requires !e.ListError?
  {
    if e.PrefixEntry? then e.prefix else e.metadata.name
  }

  /** The future kept for one entry: already satisfied, the status of the
      k-th message published by this call, or the batcher's future for a
      pushed row. */
  datatype Pending = Ready(status: Status) | Publishing(index: nat) | Pushed(ticket: nat)

  /** How the listing loop ended: every entry handled, split at the deadline,
      or an entry error turned into an exception. */
  datatype ListingEnd = Exhausted | Split | Failed(message: string, status: Status)

  /** What one call did: nothing at all (no bucket attribute), or the pending
      futures and the attributes of the messages published, in order. */
  datatype Dispatch =
    | MissingBucket
    | Dispatched(pending: seq<Pending>, published: seq<Attributes>, end: ListingEnd)

  /** The work is split once the clock reaches five minutes past the start
      (clock readings in milliseconds). */
  const FiveMinutes := 5 * 60 * 1000

  const ListingContext := "listing bucket "

  /** ThrowIfNotOkay's message, before the status it appends. */
  function ListingFailureMessage(bucket: string): string
  {
    "error while " + ListingContext + bucket + " status="
  }

  function Prefix(attributes: Attributes): Option<string>
  {
    if "prefix" in attributes then Some(attributes["prefix"]) else None
  }

  /** The message that schedules one sub-prefix. */
  function SubPrefixMessage(bucket: string, p: string): (m: Attributes)
    ensures m.Keys == {"bucket", "prefix"} && m["bucket"] == bucket && m["prefix"] == p
  {
    map["bucket" := bucket, "prefix" := p]
  }

  /** The message that continues this listing from `start`. */
  function ContinuationMessage(bucket: string, prefix: Option<string>, start: string): (m: Attributes)
    ensures "bucket" in m && m["bucket"] == bucket
    ensures "start" in m && m["start"] == start
    ensures "prefix" in m <==> prefix.Some?
    ensures prefix.Some? ==> m["prefix"] == prefix.value
    ensures m.Keys <= {"bucket", "start", "prefix"}
  {
    var m := map["bucket" := bucket, "start" := start];
    if prefix.Some? then m["prefix" := prefix.value] else m
  }

  /** Sub-prefixes other than the message's own prefix are republished. */
  predicate Reschedules(prefix: Option<string>, e: ListEntry)
  {
    e.PrefixEntry? && !(prefix.Some? && prefix.value == e.prefix)
  }

  /** How many of `entries` are republished sub-prefixes. */
  function Publishes(prefix: Option<string>, entries: seq<ListEntry>): nat
  {
    if entries == [] then 0
    else Publishes(prefix, entries[..|entries| - 1]) + (if Reschedules(prefix, entries[|entries| - 1]) then 1 else 0)
  }

  /** How many of `entries` are objects. */
  function Objects(entries: seq<ListEntry>): nat
  {
    if entries == [] then 0
    else Objects(entries[..|entries| - 1]) + (if entries[|entries| - 1].ObjectEntry? then 1 else 0)
  }

  /** Entry j was handled before the deadline: an own-prefix entry is a ready
      OK, any other sub-prefix is the next message published, an object is
      the next row pushed (tickets run on from `ticket0`). */
  predicate Handled(bucket: string, prefix: Option<string>, entries: seq<ListEntry>, ticket0: nat,
                    pending: seq<Pending>, published: seq<Attributes>, j: nat)
    requires j < |entries| && j < |pending|
  {
    match entries[j]
    case ListError(_) => false
    case PrefixEntry(p) =>
      if prefix.Some? && prefix.value == p then pending[j] == Ready(OkStatus)
      else
        var k := Publishes(prefix, entries[..j]);
        pending[j] == Publishing(k) && k < |published| && published[k] == SubPrefixMessage(bucket, p)
    case ObjectEntry(_) => pending[j] == Pushed(ticket0 + Objects(entries[..j]))
  }

  /** The first n entries were read before the deadline and handled. */
  predicate HandledThrough(bucket: string, prefix: Option<string>, entries: seq<ListEntry>, ticket0: nat,
                           start: int, now: nat -> int, pending: seq<Pending>, published: seq<Attributes>, n: nat)
    requires n <= |entries| && n <= |pending|
  {
    forall j :: 0 <= j < n ==>
      now(j) < start + FiveMinutes && Handled(bucket, prefix, entries, ticket0, pending, published, j)
  }

  /** Every message in `published` schedules a sub-prefix of `bucket` other
      than the message's own prefix. */
  predicate SubPrefixMessages(bucket: string, prefix: Option<string>, published: seq<Attributes>)
  {
    forall k :: 0 <= k < |published| ==>
      published[k].Keys == {"bucket", "prefix"} && published[k]["bucket"] == bucket
      && (prefix.Some? ==> published[k]["prefix"] != prefix.value)
  }

  /** What a call on a message with a bucket does with `entries`, read at the
      clock values now(0), now(1), ...: the entries before the end are
      handled on time; the loop ends at the end of the listing, at the first
      entry read on or after the deadline (which is turned into a
      continuation), or at the first entry error. */
  predicate DispatchedAsListed(bucket: string, prefix: Option<string>, entries: seq<ListEntry>, ticket0: nat,
                               start: int, now: nat -> int, d: Dispatch)
  {
    d.Dispatched?
    && var n := |d.pending|;
    var handled := if d.end.Split? then n - 1 else n;
    0 <= handled <= n <= |entries|
    && HandledThrough(bucket, prefix, entries, ticket0, start, now, d.pending, d.published, handled)
    && |d.published| == Publishes(prefix, entries[..handled]) + (if d.end.Split? then 1 else 0)
    && SubPrefixMessages(bucket, prefix, d.published[..Publishes(prefix, entries[..handled])])
    && match d.end
       case Exhausted => n == |entries|
       case Split =>
         !entries[n - 1].ListError? && now(n - 1) >= start + FiveMinutes
         && d.pending[n - 1] == Publishing(|d.published| - 1)
         && d.published[|d.published| - 1] == ContinuationMessage(bucket, prefix, EntryName(entries[n - 1]))
       case Failed(message, status) =>
         n < |entries| && entries[n] == ListError(status) && message == ListingFailureMessage(bucket)
  }

  lemma PrefixSnoc(entries: seq<ListEntry>, i: nat)
    requires i < |entries|
    ensures entries[..i + 1][..i] == entries[..i]
    ensures entries[..i + 1][i] == entries[i]
    ensures Objects(entries[..i + 1]) == Objects(entries[..i]) + (if entries[i].ObjectEntry? then 1 else 0)
  {
    assert entries[..i + 1][..i] == entries[..i];
  }

  /** The future and the messages one entry read on time gives, when k
      messages were published before it and `ticket` is the batcher's next
      ticket. */
  predicate Dispatches(bucket: string, prefix: Option<string>, entry: ListEntry, k: nat, ticket: nat,
                       next: Pending, more: seq<Attributes>)
  {
    match entry
    case ListError(_) => false
    case PrefixEntry(p) =>
      if prefix.Some? && prefix.value == p then next == Ready(OkStatus) && more == []
      else next == Publishing(k) && more == [SubPrefixMessage(bucket, p)]
    case ObjectEntry(_) => next == Pushed(ticket) && more == []
  }

  /** Handling one more entry leaves the earlier entries handled. */
  lemma HandledSnoc(bucket: string, prefix: Option<string>, entries: seq<ListEntry>, ticket0: nat,
                    start: int, now: nat -> int, pending: seq<Pending>, published: seq<Attributes>, n: nat,
                    next: Pending, more: seq<Attributes>)
    requires n <= |entries| && n <= |pending|
    requires HandledThrough(bucket, prefix, entries, ticket0, start, now, pending, published, n)
    ensures HandledThrough(bucket, prefix, entries, ticket0, start, now, pending + [next], published + more, n)
  {
    forall j | 0 <= j < n
      ensures Handled(bucket, prefix, entries, ticket0, pending + [next], published + more, j)
    {
      assert Handled(bucket, prefix, entries, ticket0, pending, published, j);
      assert (pending + [next])[j] == pending[j];
      if Reschedules(prefix, entries[j]) {
        var k := Publishes(prefix, entries[..j]);
        assert (published + more)[k] == published[k];
      }
    }
  }

  /** What the listing loop keeps after handling the first i entries. */
  predicate LoopState(bucket: string, prefix: Option<string>, entries: seq<ListEntry>, ticket0: nat,
                      start: int, now: nat -> int, pending: seq<Pending>, published: seq<Attributes>, i: nat)
  {
    i <= |entries| && |pending| == i
    && HandledThrough(bucket, prefix, entries, ticket0, start, now, pending, published, i)
    && |published| == Publishes(prefix, entries[..i])
    && SubPrefixMessages(bucket, prefix, published)
  }

  /** Handling entry i on time extends the loop's state by one entry. */
  lemma LoopStep(bucket: string, prefix: Option<string>, entries: seq<ListEntry>, ticket0: nat,
                 start: int, now: nat -> int, pending: seq<Pending>, published: seq<Attributes>, i: nat,
                 next: Pending, more: seq<Attributes>)
    requires LoopState(bucket, prefix, entries, ticket0, start, now, pending, published, i) && i < |entries|
    requires now(i) < start + FiveMinutes
    requires Dispatches(bucket, prefix, entries[i], |published|, ticket0 + Objects(entries[..i]), next, more)
    ensures LoopState(bucket, prefix, entries, ticket0, start, now, pending + [next], published + more, i + 1)
  {
    HandledSnoc(bucket, prefix, entries, ticket0, start, now, pending, published, i, next, more);
    PrefixSnoc(entries, i);
    assert Handled(bucket, prefix, entries, ticket0, pending + [next], published + more, i);
    var published' := published + more;
    forall k | 0 <= k < |published'|
      ensures published'[k].Keys == {"bucket", "prefix"} && published'[k]["bucket"] == bucket
      ensures prefix.Some? ==> published'[k]["prefix"] != prefix.value
    {
      if k >= |published| {
        assert published'[k] == more[k - |published|];
      }
    }
  }

  /** The three ways the loop ends, each as DispatchedAsListed describes it. */
  lemma ExhaustedAsListed(bucket: string, prefix: Option<string>, entries: seq<ListEntry>, ticket0: nat,
                          start: int, now: nat -> int, pending: seq<Pending>, published: seq<Attributes>)
    requires LoopState(bucket, prefix, entries, ticket0, start, now, pending, published, |entries|)
    ensures DispatchedAsListed(bucket, prefix, entries, ticket0, start, now, Dispatched(pending, published, Exhausted))
  {
    assert entries[..|entries|] == entries;
    assert published[..|published|] == published;
  }

  lemma FailedAsListed(bucket: string, prefix: Option<string>, entries: seq<ListEntry>, ticket0: nat,
                       start: int, now: nat -> int, pending: seq<Pending>, published: seq<Attributes>, i: nat)
    requires LoopState(bucket, prefix, entries, ticket0, start, now, pending, published, i)
    requires i < |entries| && entries[i].ListError?
    ensures DispatchedAsListed(bucket, prefix, entries, ticket0, start, now,
                               Dispatched(pending, published, Failed(ListingFailureMessage(bucket), entries[i].status)))
  {
    assert published[..|published|] == published;
  }

  lemma SplitAsListed(bucket: string, prefix: Option<string>, entries: seq<ListEntry>, ticket0: nat,
                      start: int, now: nat -> int, pending: seq<Pending>, published: seq<Attributes>, i: nat)
    requires LoopState(bucket, prefix, entries, ticket0, start, now, pending, published, i)
    requires i < |entries| && !entries[i].ListError? && now(i) >= start + FiveMinutes
    ensures DispatchedAsListed(bucket, prefix, entries, ticket0, start, now,
                               Dispatched(pending + [Publishing(|published|)],
                                          published + [ContinuationMessage(bucket, prefix, EntryName(entries[i]))], Split))
  {
    var continuation := ContinuationMessage(bucket, prefix, EntryName(entries[i]));
    HandledSnoc(bucket, prefix, entries, ticket0, start, now, pending, published, i,
                Publishing(|published|), [continuation]);
    assert (published + [continuation])[..|published|] == published;
  }

  /** The visitor applied to one entry read on time: the own prefix is a
      ready OK, another sub-prefix is published as the next message, an
      object is pushed to the batcher. */
  method DispatchEntry(bucket: string, prefix: Option<string>, entry: ListEntry, k: nat, batcher: MutationBatcher)
    returns (next: Pending, more: seq<Attributes>)
    requires batcher.Valid() && !entry.ListError?
    modifies batcher
    ensures batcher.Valid()
    ensures Dispatches(bucket, prefix, entry, k, old(batcher.pushed), next, more)
    ensures batcher.pushed == old(batcher.pushed) + (if entry.ObjectEntry? then 1 else 0)
    ensures !entry.ObjectEntry? ==> unchanged(batcher)
  {
    more := [];
    match entry {
      case PrefixEntry(p) =>
        if prefix.Some? && prefix.value == p {
          next := Ready(OkStatus);
        } else {
          next := Publishing(k);
          more := [SubPrefixMessage(bucket, p)];
        }
      case ObjectEntry(o) =>
        var ticket := batcher.Push(o);
        next := Pushed(ticket);
    }
  }

  /** IndexGcsPrefix. The listing, the clock and the publisher are inputs:
      `entries` is what ListObjectsAndPrefixes yields for the message's bucket,
      prefix and start offset, `start` is the clock at the call and `now(j)`
      the clock when entry j is read. Rows go to `batcher`. */
  method IndexGcsPrefix(attributes: Attributes, entries: seq<ListEntry>, start: int, now: nat -> int,
                        batcher: MutationBatcher)
    returns (d: Dispatch)
    requires batcher.Valid()
    modifies batcher
    ensures batcher.Valid()
    ensures d.MissingBucket? <==> "bucket" !in attributes
    ensures d.MissingBucket? ==> unchanged(batcher)
    ensures d.Dispatched? ==>
      DispatchedAsListed(attributes["bucket"], Prefix(attributes), entries, old(batcher.pushed), start, now, d)
      && batcher.pushed == old(batcher.pushed) + Objects(entries[..if d.end.Split? then |d.pending| - 1 else |d.pending|])
  {
    if "bucket" !in attributes {
      return MissingBucket;
    }
    var bucket := attributes["bucket"];
    var prefix := Prefix(attributes);
    var deadline := start + FiveMinutes;
    ghost var ticket0 := batcher.pushed;
    var pending: seq<Pending> := [];
    var published: seq<Attributes> := [];
    var i := 0;
    while i < |entries|
      invariant LoopState(bucket, prefix, entries, ticket0, start, now, pending, published, i)
      invariant batcher.Valid() && batcher.pushed == ticket0 + Objects(entries[..i])
    {
      var entry := entries[i];
      if entry.ListError? {
        FailedAsListed(bucket, prefix, entries, ticket0, start, now, pending, published, i);
        return Dispatched(pending, published, Failed(ListingFailureMessage(bucket), entry.status));
      }
      if now(i) >= deadline {
        SplitAsListed(bucket, prefix, entries, ticket0, start, now, pending, published, i);
        var continuation := ContinuationMessage(bucket, prefix, EntryName(entry));
        return Dispatched(pending + [Publishing(|published|)], published + [continuation], Split);
      }
      PrefixSnoc(entries, i);
      var next, more := DispatchEntry(bucket, prefix, entry, |published|, batcher);
      LoopStep(bucket, prefix, entries, ticket0, start, now, pending, published, i, next, more);
      pending := pending + [next];
      published := published + more;
      i := i + 1;
    }
    ExhaustedAsListed(bucket, prefix, entries, ticket0, start, now, pending, published);
    assert entries[..i] == entries;
    d := Dispatched(pending, published, Exhausted);
  }

  /** The status a pending future holds once it is satisfied, or None:
      `publishStatus(k)` is the outcome of the k-th publish, `promised` the
      statuses the batcher has set by ticket. */
  function Resolve(p: Pending, publishStatus: nat -> Status, promised: map<nat, Status>): Option<Status>
  {
    match p
    case Ready(s) => Some(s)
    case Publishing(k) => Some(publishStatus(k))
    case Pushed(t) => if t in promised then Some(promised[t]) else None
  }

  function Resolved(pending: seq<Pending>, publishStatus: nat -> Status, promised: map<nat, Status>): (r: seq<Option<Status>>)
    ensures |r| == |pending|
    ensures forall j :: 0 <= j < |pending| ==> r[j] == Resolve(pending[j], publishStatus, promised)
  {
    seq(|pending|, j requires 0 <= j < |pending| => Resolve(pending[j], publishStatus, promised))
  }

  predicate AllSatisfied(results: seq<Option<Status>>)
  {
    forall j :: 0 <= j < |results| ==> results[j].Some?
  }

  predicate AllOk(results: seq<Option<Status>>)
    requires AllSatisfied(results)
  {
    forall j :: 0 <= j < |results| ==> results[j].value.IsOk()
  }

  datatype Reply = Ack | Nack

  /** The continuation of when_all(pending) as written: it runs once the
      accumulator has seen every future complete, and acks iff all hold OK.
      Over no futures no continuation holds the accumulator, so it is
      destroyed with its promise unsatisfied: the future completes with a
      broken promise, `f.get()` throws in the continuation, and the message
      is neither acked nor nacked. */
  function WhenAllReply(results: seq<Option<Status>>): Option<Reply>
  {
    if results == [] || !AllSatisfied(results) then None
    else if AllOk(results) then Some(Ack)
    else Some(Nack)
  }

  /** The reply the design asks for: once everything the call started has
      completed, ack iff it all succeeded; nothing started is nothing failed. */
  function CorrectedReply(results: seq<Option<Status>>): Option<Reply>
  {
    if !AllSatisfied(results) then None
    else if AllOk(results) then Some(Ack)
    else Some(Nack)
  }

  /** The corrected reply acks exactly when every future is satisfied with
      OK, nacks exactly when every future is satisfied and one is not OK, and
      waits otherwise. */
  lemma CorrectedReplyAcksIffAllOk(results: seq<Option<Status>>)
    ensures CorrectedReply(results) == Some(Ack) <==> forall j :: 0 <= j < |results| ==> results[j].Some? && results[j].value.IsOk()
    ensures CorrectedReply(results) == Some(Nack) <==>
      AllSatisfied(results) && exists j :: 0 <= j < |results| && !results[j].value.IsOk()
    ensures CorrectedReply(results).None? <==> exists j :: 0 <= j < |results| && results[j].None?
  {
  }

  /** The two agree on every non-empty list of futures and differ on the empty one. */
  lemma WhenAllReplyDiffersOnlyWhenEmpty(results: seq<Option<Status>>)
    ensures WhenAllReply(results) == CorrectedReply(results) <==> results != []
    ensures WhenAllReply([]).None? && CorrectedReply([]) == Some(Ack)
  {
  }

  /** A bucket level with nothing in it starts nothing, so the message is
      never acked as written (and is acked as intended). */
  lemma EmptyListingNeverAcked(bucket: string, prefix: Option<string>, ticket0: nat, start: int, now: nat -> int,
                               d: Dispatch, publishStatus: nat -> Status, promised: map<nat, Status>)
    requires DispatchedAsListed(bucket, prefix, [], ticket0, start, now, d)
    ensures d == Dispatched([], [], Exhausted)
    ensures WhenAllReply(Resolved(d.pending, publishStatus, promised)).None?
    ensures CorrectedReply(Resolved(d.pending, publishStatus, promised)) == Some(Ack)
  {
    assert |d.pending| == 0;
    assert Publishes(prefix, [][..0]) == 0;
  }

  /** A message is acked only when the row of every object it pushed has
      been committed with OK: while one row sits in the batcher's buffer
      (the workers never flush it themselves), no reply is sent. */
  lemma AckNeedsCommittedRows(pending: seq<Pending>, publishStatus: nat -> Status, promised: map<nat, Status>, j: nat)
    requires j < |pending| && pending[j].Pushed?
    ensures pending[j].ticket !in promised ==> CorrectedReply(Resolved(pending, publishStatus, promised)).None?
    ensures CorrectedReply(Resolved(pending, publishStatus, promised)) == Some(Ack) ==>
      pending[j].ticket in promised && promised[pending[j].ticket].IsOk()
  {
    var r := Resolved(pending, publishStatus, promised);
    assert r[j] == Resolve(pending[j], publishStatus, promised);
  }

  /** A sub-prefix entry equal to the message's own prefix never makes the
      reply a nack, and is not republished. */
  lemma OwnPrefixIsReadyOk(bucket: string, prefix: Option<string>, entries: seq<ListEntry>, ticket0: nat,
                           start: int, now: nat -> int, d: Dispatch, j: nat,
                           publishStatus: nat -> Status, promised: map<nat, Status>)
    requires DispatchedAsListed(bucket, prefix, entries, ticket0, start, now, d)
    requires j < |entries| && prefix.Some? && entries[j] == PrefixEntry(prefix.value)
    requires j < (if d.end.Split? then |d.pending| - 1 else |d.pending|)
    ensures d.pending[j] == Ready(OkStatus)
    ensures Resolved(d.pending, publishStatus, promised)[j] == Some(OkStatus)
    ensures forall k :: 0 <= k < |d.published| ==> "start" in d.published[k] || d.published[k]["prefix"] != prefix.value
  {
    var handled := if d.end.Split? then |d.pending| - 1 else |d.pending|;
    assert Handled(bucket, prefix, entries, ticket0, d.pending, d.published, j);
    var p := Publishes(prefix, entries[..handled]);
    forall k | 0 <= k < |d.published|
      ensures "start" in d.published[k] || d.published[k]["prefix"] != prefix.value
    {
      if k < p {
        assert d.published[..p][k] == d.published[k];
      }
    }
  }

  /** After a split, the message is acked only once the continuation was
      published successfully; a split always started something, so the
      written and the corrected reply agree. */
  lemma AckNeedsContinuation(bucket: string, prefix: Option<string>, entries: seq<ListEntry>, ticket0: nat,
                             start: int, now: nat -> int, d: Dispatch,
                             publishStatus: nat -> Status, promised: map<nat, Status>)
    requires DispatchedAsListed(bucket, prefix, entries, ticket0, start, now, d) && d.end.Split?
    ensures CorrectedReply(Resolved(d.pending, publishStatus, promised)) == Some(Ack) ==>
      publishStatus(|d.published| - 1).IsOk()
    ensures WhenAllReply(Resolved(d.pending, publishStatus, promised)) == CorrectedReply(Resolved(d.pending, publishStatus, promised))
  {
    var r := Resolved(d.pending, publishStatus, promised);
    var n := |d.pending|;
    assert r[n - 1] == Some(publishStatus(|d.published| - 1));
  }
}
