// IndexGcsPrefix of the Cloud Functions indexer
// (getting-started/index_gcs_prefix.cc): a CloudEvent carries a Pub/Sub
// message naming a bucket and optionally a prefix and a start offset; the
// function lists that level of the bucket, publishes every sub-prefix,
// commits one row per object, splits the work with a continuation message
// once seven seconds have passed, and fails if any publish failed.
module IndexFunction {
  import opened Wrappers
  import opened JsonValue
  import opened GcsIndexing
  import opened MutationBatching
  import opened PrefixDispatch

  /** The attributes the function reads from the message. */
  datatype Request = Request(bucket: string, prefix: Option<string>, start: Option<string>)

  /** Why the function stopped with an exception: an attribute that is not
      a string (json::value's type error), a ThrowIfNotOkay message and the
      status it names, or the failed commit's status (StatusOr::value). */
  datatype Failure =
    | NotText(name: string)
    | StatusError(message: string, status: Status)
    | CommitError(status: Status)

  /** How the function ends: after logging an error, with an exception, or
      having committed `rows` rows and published `messages` messages. */
  datatype Outcome = Logged(message: string) | Threw(failure: Failure) | Done(rows: nat, messages: nat)

  /** The event's data, parsed; an absent payload parses as "{}". */
  function Payload(data: Option<Json>): Json
  {
    if data.Some? then data.value else EmptyObject
  }

  /** json::value(name, ""): the string member, the default when absent, a
      type error when the member is not a string. */
  function TextAttribute(attributes: Json, name: string): Result<string, Outcome>
  {
    if !Contains(attributes, name) then Ok("")
    else match Member(attributes, name)
      case Str(s) => Ok(s)
      case _ => Err(Threw(NotText(name)))
  }

  /** An optional attribute: None when absent. */
  function OptionalAttribute(attributes: Json, name: string): Result<Option<string>, Outcome>
  {
    if !Contains(attributes, name) then Ok(None)
    else match TextAttribute(attributes, name)
      case Ok(s) => Ok(Some(s))
      case Err(e) => Err(e)
  }

  /** The validation chain in order: content type, embedded message, its
      attributes, the bucket attribute; then bucket, prefix and start are read. */
  function ReadRequest(contentType: Option<string>, data: Option<Json>): Result<Request, Outcome>
  {
    if (if contentType.Some? then contentType.value else "") != "application/json" then
      Err(Logged("expected application/json data"))
    else
      var payload := Payload(data);
      if !Contains(payload, "message") then Err(Logged("missing embedded Pub/Sub message"))
      else
        var message := Member(payload, "message");
        if !Contains(message, "attributes") then Err(Logged("missing Pub/Sub attributes"))
        else
          var attributes := Member(message, "attributes");
          if !Contains(attributes, "bucket") then Err(Logged("missing 'bucket' attribute in Pub/Sub message"))
          else
            match TextAttribute(attributes, "bucket")
            case Err(e) => Err(e)
            case Ok(bucket) =>
              match OptionalAttribute(attributes, "prefix")
              case Err(e) => Err(e)
              case Ok(prefix) =>
                match OptionalAttribute(attributes, "start")
                case Err(e) => Err(e)
                case Ok(start) => Ok(Request(bucket, prefix, start))
  }

  /** A well-formed event is read back exactly; anything else stops at the
      first check it fails, in the order the checks are written. */
  lemma ReadRequestAccepts(contentType: Option<string>, data: Option<Json>, attributes: map<string, Json>)
    requires contentType == Some("application/json")
    requires data == Some(Object(map["message" := Object(map["attributes" := Object(attributes)])]))
    requires "bucket" in attributes && attributes["bucket"].Str?
    requires "prefix" in attributes ==> attributes["prefix"].Str?
    requires "start" in attributes ==> attributes["start"].Str?
    ensures ReadRequest(contentType, data) == Ok(Request(
      attributes["bucket"].s,
      if "prefix" in attributes then Some(attributes["prefix"].s) else None,
      if "start" in attributes then Some(attributes["start"].s) else None))
  {
    var payload := Payload(data);
    assert Contains(payload, "message");
    var message := Member(payload, "message");
    assert message == Object(map["attributes" := Object(attributes)]);
    assert Member(message, "attributes") == Object(attributes);
  }

  /** The checks before the bucket only log; none of them throws. */
  lemma RejectionsAreLogged(contentType: Option<string>, data: Option<Json>)
    requires ReadRequest(contentType, data).Err?
    ensures ReadRequest(contentType, data).error.Logged? <==>
      (contentType != Some("application/json")
       || !Contains(Payload(data), "message")
       || !Contains(Member(Payload(data), "message"), "attributes")
       || !Contains(Member(Member(Payload(data), "message"), "attributes"), "bucket"))
  {
  }

  /** An event without data is logged as missing its message. */
  lemma AbsentDataLogged()
    ensures ReadRequest(Some("application/json"), None) == Err(Logged("missing embedded Pub/Sub message"))
  {
    assert !Contains(EmptyObject, "message");
  }

  /** Seven seconds, in milliseconds: the event must be handled within ten. */
  const SevenSeconds := 7 * 1000

  const PublishingContext := "publishing one or more messages"

  /** ThrowIfNotOkay's message for a failed publish, before the status. */
  function PublishingFailureMessage(): string
  {
    "error while " + PublishingContext + " status="
  }

  /** How the listing loop ended. */
  datatype LoopEnd = ListedAll | SplitAtDeadline | ListingFailed(status: Status) | CommitFailed(status: Status)

  /** Entry j was handled on time: a sub-prefix (any, the function's own
      included) is published, an object's row is committed with success. */
  predicate Handled(bucket: string, entries: seq<ListEntry>, published: seq<Attributes>,
                    commits: seq<Mutation>, commitStatus: nat -> Status, j: nat)
    requires j < |entries|
  {
    match entries[j]
    case ListError(_) => false
    case PrefixEntry(p) =>
      var k := Publishes(None, entries[..j]);
      k < |published| && published[k] == SubPrefixMessage(bucket, p)
    case ObjectEntry(o) =>
      var k := Objects(entries[..j]);
      k < |commits| && commits[k] == UpdateObjectMetadata(o) && commitStatus(k).IsOk()
  }

  predicate HandledThrough(bucket: string, entries: seq<ListEntry>, start: int, now: nat -> int,
                           published: seq<Attributes>, commits: seq<Mutation>, commitStatus: nat -> Status, n: nat)
    requires n <= |entries|
  {
    forall j :: 0 <= j < n ==>
      now(j) <= start + SevenSeconds && Handled(bucket, entries, published, commits, commitStatus, j)
  }

  /** What the listing loop did with `entries`, read at the clock values
      now(0), now(1), ...: the first `handled` entries were handled on time,
      and the loop ended at the end of the listing, at the first entry read
      after the deadline (continued in one more message), at an entry error,
      or at the first commit that failed. */
  predicate ListedAsWritten(request: Request, entries: seq<ListEntry>, start: int, now: nat -> int,
                            commitStatus: nat -> Status,
                            published: seq<Attributes>, commits: seq<Mutation>, handled: nat, end: LoopEnd)
  {
    handled <= |entries|
    && HandledThrough(request.bucket, entries, start, now, published, commits, commitStatus, handled)
    && |published| == Publishes(None, entries[..handled]) + (if end.SplitAtDeadline? then 1 else 0)
    && |commits| == Objects(entries[..handled]) + (if end.CommitFailed? then 1 else 0)
    && match end
       case ListedAll => handled == |entries|
       case SplitAtDeadline =>
         handled < |entries| && !entries[handled].ListError? && now(handled) > start + SevenSeconds
         && published[|published| - 1] == ContinuationMessage(request.bucket, request.prefix, EntryName(entries[handled]))
       case ListingFailed(s) => handled < |entries| && entries[handled] == ListError(s)
       case CommitFailed(s) =>
         handled < |entries| && entries[handled].ObjectEntry? && now(handled) <= start + SevenSeconds
         && commits[|commits| - 1] == UpdateObjectMetadata(entries[handled].metadata)
         && s == commitStatus(|commits| - 1) && !s.IsOk()
  }

  /** The statuses of the first n publishes. */
  function PublishStatuses(publishStatus: nat -> Status, n: nat): (s: seq<Status>)
    ensures |s| == n && forall k :: 0 <= k < n ==> s[k] == publishStatus(k)
  {
    seq(n, k requires 0 <= k => publishStatus(k))
  }

  /** The status left by the aggregation loop: the last one that is not OK,
      or OK when every one is. */
  function LastFailure(statuses: seq<Status>): Status
  {
    if statuses == [] then OkStatus
    else if !statuses[|statuses| - 1].IsOk() then statuses[|statuses| - 1]
    else LastFailure(statuses[..|statuses| - 1])
  }

  /** The aggregate is OK iff every publish succeeded; otherwise it is the
      status of the last publish that failed. */
  lemma {:induction false} LastFailureIsLast(statuses: seq<Status>)
    ensures LastFailure(statuses).IsOk() <==> forall k :: 0 <= k < |statuses| ==> statuses[k].IsOk()
    ensures !LastFailure(statuses).IsOk() ==>
      exists j :: 0 <= j < |statuses| && statuses[j] == LastFailure(statuses)
                  && forall k :: j < k < |statuses| ==> statuses[k].IsOk()
  {
    if statuses != [] {
      var n := |statuses|;
      var front := statuses[..n - 1];
      LastFailureIsLast(front);
      if statuses[n - 1].IsOk() {
        assert forall k :: 0 <= k < n - 1 ==> front[k] == statuses[k];
        if !LastFailure(statuses).IsOk() {
          var j :| 0 <= j < |front| && front[j] == LastFailure(front)
                   && forall k :: j < k < |front| ==> front[k].IsOk();
          assert statuses[j] == LastFailure(statuses);
        }
      } else {
        assert statuses[n - 1] == LastFailure(statuses);
      }
    }
  }

  /** How the function ends after the listing loop. */
  function Conclusion(request: Request, publishStatus: nat -> Status,
                      published: seq<Attributes>, commits: seq<Mutation>, end: LoopEnd): Outcome
  {
    match end
    case ListingFailed(s) => Threw(StatusError(ListingFailureMessage(request.bucket), s))
    case CommitFailed(s) => Threw(CommitError(s))
    case _ =>
      var status := LastFailure(PublishStatuses(publishStatus, |published|));
      if status.IsOk() then Done(|commits|, |published|)
      else Threw(StatusError(PublishingFailureMessage(), status))
  }

  /** What the loop keeps after handling the first i entries. */
  predicate LoopState(bucket: string, entries: seq<ListEntry>, start: int, now: nat -> int,
                      published: seq<Attributes>, commits: seq<Mutation>, commitStatus: nat -> Status, i: nat)
  {
    i <= |entries|
    && HandledThrough(bucket, entries, start, now, published, commits, commitStatus, i)
    && |published| == Publishes(None, entries[..i])
    && |commits| == Objects(entries[..i])
  }

  lemma HandledSnoc(bucket: string, entries: seq<ListEntry>, start: int, now: nat -> int,
                    published: seq<Attributes>, commits: seq<Mutation>, commitStatus: nat -> Status, n: nat,
                    morePublished: seq<Attributes>, moreCommits: seq<Mutation>)
    requires n <= |entries|
    requires HandledThrough(bucket, entries, start, now, published, commits, commitStatus, n)
    ensures HandledThrough(bucket, entries, start, now, published + morePublished, commits + moreCommits, commitStatus, n)
  {
    forall j | 0 <= j < n
      ensures Handled(bucket, entries, published + morePublished, commits + moreCommits, commitStatus, j)
    {
      assert Handled(bucket, entries, published, commits, commitStatus, j);
      match entries[j] {
        case PrefixEntry(_) =>
          var k := Publishes(None, entries[..j]);
          assert (published + morePublished)[k] == published[k];
        case ObjectEntry(_) =>
          var k := Objects(entries[..j]);
          assert (commits + moreCommits)[k] == commits[k];
      }
    }
  }

  lemma PublishesSnoc(entries: seq<ListEntry>, i: nat)
    requires i < |entries|
    ensures Publishes(None, entries[..i + 1]) == Publishes(None, entries[..i]) + (if entries[i].PrefixEntry? then 1 else 0)
  {
    assert entries[..i + 1][..i] == entries[..i];
  }

  /** Handling entry i on time extends the loop's state by that entry. */
  lemma LoopStep(bucket: string, entries: seq<ListEntry>, start: int, now: nat -> int,
                 published: seq<Attributes>, commits: seq<Mutation>, commitStatus: nat -> Status, i: nat,
                 morePublished: seq<Attributes>, moreCommits: seq<Mutation>)
    requires LoopState(bucket, entries, start, now, published, commits, commitStatus, i) && i < |entries|
    requires now(i) <= start + SevenSeconds
    requires match entries[i]
      case ListError(_) => false
      case PrefixEntry(p) => morePublished == [SubPrefixMessage(bucket, p)] && moreCommits == []
      case ObjectEntry(o) =>
        morePublished == [] && moreCommits == [UpdateObjectMetadata(o)] && commitStatus(|commits|).IsOk()
    ensures LoopState(bucket, entries, start, now, published + morePublished, commits + moreCommits, commitStatus, i + 1)
  {
    HandledSnoc(bucket, entries, start, now, published, commits, commitStatus, i, morePublished, moreCommits);
    PrefixSnoc(entries, i);
    PublishesSnoc(entries, i);
    assert Handled(bucket, entries, published + morePublished, commits + moreCommits, commitStatus, i);
  }

  /** The ways the listing loop ends, each as ListedAsWritten describes it. */
  lemma ListedAllAsWritten(request: Request, entries: seq<ListEntry>, start: int, now: nat -> int,
                           commitStatus: nat -> Status, published: seq<Attributes>, commits: seq<Mutation>)
    requires LoopState(request.bucket, entries, start, now, published, commits, commitStatus, |entries|)
    ensures ListedAsWritten(request, entries, start, now, commitStatus, published, commits, |entries|, ListedAll)
  {
  }

  lemma ListingFailedAsWritten(request: Request, entries: seq<ListEntry>, start: int, now: nat -> int,
                               commitStatus: nat -> Status, published: seq<Attributes>, commits: seq<Mutation>, i: nat)
    requires LoopState(request.bucket, entries, start, now, published, commits, commitStatus, i)
    requires i < |entries| && entries[i].ListError?
    ensures ListedAsWritten(request, entries, start, now, commitStatus, published, commits, i, ListingFailed(entries[i].status))
  {
  }

  lemma SplitAsWritten(request: Request, entries: seq<ListEntry>, start: int, now: nat -> int,
                       commitStatus: nat -> Status, published: seq<Attributes>, commits: seq<Mutation>, i: nat)
    requires LoopState(request.bucket, entries, start, now, published, commits, commitStatus, i)
    requires i < |entries| && !entries[i].ListError? && now(i) > start + SevenSeconds
    ensures ListedAsWritten(request, entries, start, now, commitStatus,
                            published + [ContinuationMessage(request.bucket, request.prefix, EntryName(entries[i]))],
                            commits, i, SplitAtDeadline)
  {
    var continuation := ContinuationMessage(request.bucket, request.prefix, EntryName(entries[i]));
    HandledSnoc(request.bucket, entries, start, now, published, commits, commitStatus, i, [continuation], []);
    assert commits + [] == commits;
  }

  lemma CommitFailedAsWritten(request: Request, entries: seq<ListEntry>, start: int, now: nat -> int,
                              commitStatus: nat -> Status, published: seq<Attributes>, commits: seq<Mutation>, i: nat)
    requires LoopState(request.bucket, entries, start, now, published, commits, commitStatus, i)
    requires i < |entries| && entries[i].ObjectEntry? && now(i) <= start + SevenSeconds
    requires !commitStatus(|commits|).IsOk()
    ensures ListedAsWritten(request, entries, start, now, commitStatus,
                            published, commits + [UpdateObjectMetadata(entries[i].metadata)], i,
                            CommitFailed(commitStatus(|commits|)))
  {
    HandledSnoc(request.bucket, entries, start, now, published, commits, commitStatus, i,
                [], [UpdateObjectMetadata(entries[i].metadata)]);
    assert published + [] == published;
  }

  /** The aggregation loop: the status of every pending publish is waited
      for, and the last one that is not OK is kept. */
  method AggregatePublishes(publishStatus: nat -> Status, n: nat) returns (status: Status)
    ensures status == LastFailure(PublishStatuses(publishStatus, n))
  {
    status := OkStatus;
    var k := 0;
    while k < n
      invariant k <= n && status == LastFailure(PublishStatuses(publishStatus, k))
    {
      var publishStatusK := publishStatus(k);
      assert PublishStatuses(publishStatus, k + 1)[..k] == PublishStatuses(publishStatus, k);
      if publishStatusK.IsOk() {
        k := k + 1;
        continue;
      }
      status := publishStatusK;
      k := k + 1;
    }
  }

  /** IndexGcsPrefix. The listing, the clock, the publisher and the commits
      are inputs: `entries` is what ListObjectsAndPrefixes yields for the
      request, `start` the clock at the call, `now(j)` the clock when entry j
      is read, `publishStatus(k)` the outcome of the k-th publish and
      `commitStatus(k)` that of the k-th commit. `published` and `commits`
      are the messages published and the rows committed, in order, and
      `handled` how many entries were handled before the loop ended. */
  method IndexGcsPrefix(contentType: Option<string>, data: Option<Json>, entries: seq<ListEntry>,
                        start: int, now: nat -> int, publishStatus: nat -> Status, commitStatus: nat -> Status)
    returns (outcome: Outcome, published: seq<Attributes>, commits: seq<Mutation>, handled: nat, end: LoopEnd)
    ensures ReadRequest(contentType, data).Err? ==>
      outcome == ReadRequest(contentType, data).error && published == [] && commits == []
    ensures ReadRequest(contentType, data).Ok? ==>
      ListedAsWritten(ReadRequest(contentType, data).value, entries, start, now, commitStatus,
                      published, commits, handled, end)
      && outcome == Conclusion(ReadRequest(contentType, data).value, publishStatus, published, commits, end)
  {
    published, commits, handled, end := [], [], 0, ListedAll;
    var read := ReadRequest(contentType, data);
    if read.Err? {
      return read.error, published, commits, handled, end;
    }
    var request := read.value;
    var bucket := request.bucket;
    var deadline := start + SevenSeconds;
    var mutationCount := 0;
    var i := 0;
    while i < |entries|
      invariant LoopState(bucket, entries, start, now, published, commits, commitStatus, i)
      invariant mutationCount == |commits| && end == ListedAll
    {
      var entry := entries[i];
      if entry.ListError? {
        ListingFailedAsWritten(request, entries, start, now, commitStatus, published, commits, i);
        end := ListingFailed(entry.status);
        return Threw(StatusError(ListingFailureMessage(bucket), entry.status)), published, commits, i, end;
      }
      if now(i) > deadline {
        SplitAsWritten(request, entries, start, now, commitStatus, published, commits, i);
        published := published + [ContinuationMessage(bucket, request.prefix, EntryName(entry))];
        handled, end := i, SplitAtDeadline;
        break;
      }
      var morePublished: seq<Attributes> := [];
      var moreCommits: seq<Mutation> := [];
      match entry {
        case PrefixEntry(p) =>
          morePublished := [SubPrefixMessage(bucket, p)];
        case ObjectEntry(o) =>
          var update := UpdateObjectMetadata(o);
          var status := commitStatus(|commits|);
          if !status.IsOk() {
            CommitFailedAsWritten(request, entries, start, now, commitStatus, published, commits, i);
            commits := commits + [update];
            end := CommitFailed(status);
            return Threw(CommitError(status)), published, commits, i, end;
          }
          moreCommits := [update];
          mutationCount := mutationCount + 1;
      }
      LoopStep(bucket, entries, start, now, published, commits, commitStatus, i, morePublished, moreCommits);
      published := published + morePublished;
      commits := commits + moreCommits;
      i := i + 1;
    }
    if end.ListedAll? {
      ListedAllAsWritten(request, entries, start, now, commitStatus, published, commits);
      handled := i;
    }
    var status := AggregatePublishes(publishStatus, |published|);
    if !status.IsOk() {
      return Threw(StatusError(PublishingFailureMessage(), status)), published, commits, handled, end;
    }
    outcome := Done(mutationCount, |published|);
  }

  /** A run that reaches the aggregation fails iff some publish failed, and
      then names the last failed publish's status. */
  lemma FailsIffSomePublishFailed(request: Request, publishStatus: nat -> Status,
                                  published: seq<Attributes>, commits: seq<Mutation>, end: LoopEnd)
    requires end.ListedAll? || end.SplitAtDeadline?
    ensures Conclusion(request, publishStatus, published, commits, end).Done? <==>
      forall k :: 0 <= k < |published| ==> publishStatus(k).IsOk()
    ensures Conclusion(request, publishStatus, published, commits, end).Done? ==>
      Conclusion(request, publishStatus, published, commits, end) == Done(|commits|, |published|)
    ensures !Conclusion(request, publishStatus, published, commits, end).Done? ==>
      exists j :: 0 <= j < |published| && !publishStatus(j).IsOk()
        && Conclusion(request, publishStatus, published, commits, end)
           == Threw(StatusError(PublishingFailureMessage(), publishStatus(j)))
        && forall k :: j < k < |published| ==> publishStatus(k).IsOk()
  {
    var statuses := PublishStatuses(publishStatus, |published|);
    LastFailureIsLast(statuses);
    if !LastFailure(statuses).IsOk() {
      var j :| 0 <= j < |statuses| && statuses[j] == LastFailure(statuses)
               && forall k :: j < k < |statuses| ==> statuses[k].IsOk();
      assert !publishStatus(j).IsOk();
      assert forall k :: j < k < |published| ==> publishStatus(k).IsOk();
    } else {
      assert forall k :: 0 <= k < |published| ==> statuses[k] == publishStatus(k);
    }
  }

  /** Unlike the GKE workers, the function republishes its own prefix when
      the listing returns it: every sub-prefix read on time is published. */
  lemma OwnPrefixRepublished(request: Request, entries: seq<ListEntry>, start: int, now: nat -> int,
                             commitStatus: nat -> Status, published: seq<Attributes>, commits: seq<Mutation>,
                             handled: nat, end: LoopEnd, j: nat)
    requires ListedAsWritten(request, entries, start, now, commitStatus, published, commits, handled, end)
    requires request.prefix.Some? && j < handled && entries[j] == PrefixEntry(request.prefix.value)
    ensures exists k :: 0 <= k < |published| && published[k] == SubPrefixMessage(request.bucket, request.prefix.value)
  {
    assert Handled(request.bucket, entries, published, commits, commitStatus, j);
  }
}
