// The Cloud Function that keeps the object index current
// (getting-started/update/update_gcs_index.cc): each storage event's JSON
// payload becomes one insert-or-update row of `gcs_objects`, or, for a
// deletion, one delete of the object's key.
module UpdateIndex {
  import opened Wrappers
  import opened Text
  import opened JsonValue
  import opened GcsIndexing

  /** Why extracting a column throws: `value()` or a const `operator[]` on a
      payload that is not an object, a const `operator[]` of an absent member,
      a member that is not a JSON string, std::stoll rejecting the text, or a
      timestamp absl::ParseTime rejects (the runtime_error message). */
  datatype FieldError =
    | NotAnObject(name: string)
    | MissingField(name: string)
    | NotAString(name: string)
    | Conversion(name: string, error: ConversionError)
    | BadTimestamp(message: string)

  /** The extractor kinds of the column table. `OptionalBoolViaInt64` is
      `optional_field(name, false)` as written: its NULL is a BOOL, but a
      bool default selects the int64 overload of ToSpannerValue.
      `OptionalBool` is the evidently intended BOOL column. */
  datatype Kind =
    | RequiredText
    | RequiredInt64
    | OptionalText
    | OptionalInt64
    | OptionalBoolViaInt64
    | OptionalBool
    | ObjectDump
    | TimestampText

  /** The Spanner type a kind's values (and NULL) are declared with. */
  function KindType(k: Kind): ValueType
  {
    match k
    case RequiredText => StringType
    case OptionalText => StringType
    case ObjectDump => StringType
    case RequiredInt64 => Int64Type
    case OptionalInt64 => Int64Type
    case OptionalBoolViaInt64 => BoolType
    case OptionalBool => BoolType
    case TimestampText => TimestampType
  }

  /** Kinds that store a NULL when the member is absent. */
  predicate Nullable(k: Kind)
  {
    !(k.RequiredText? || k.RequiredInt64?)
  }

  /** ToSpannerValue for a std::string default: `p[name].get_ref<std::string const&>()`. */
  function StringMember(p: Json, name: string): Result<Value, FieldError>
  {
    if !p.Object? then Err(NotAnObject(name))
    else if name !in p.members then Err(MissingField(name))
    else if !p.members[name].Str? then Err(NotAString(name))
    else Ok(StringValue(p.members[name].s))
  }

  /** ToSpannerValue for an int64 (or bool) default: `std::stoll(p.value(name, ""))`. */
  function Int64Member(p: Json, name: string): Result<Value, FieldError>
  {
    if !p.Object? then Err(NotAnObject(name))
    else
      var text := if name in p.members then p.members[name] else Str("");
      if !text.Str? then Err(NotAString(name))
      else match StringToInteger(text.s, INT64_MIN, INT64_MAX)
        case Err(e) => Err(Conversion(name, e))
        case Ok(n) => Ok(Int64Value(n))
  }

  /** The runtime_error a rejected timestamp raises. */
  function TimestampMessage(name: string, value: string, err: string): string
  {
    "timestamp p[" + name + "]=" + value + ": " + err
  }

  /** One column's extractor applied to the payload. `parseTime` is
      absl::ParseTime with the RFC 3339 format, as a time point or its error text. */
  function Extract(k: Kind, p: Json, name: string, parseTime: string -> Result<TimePoint, string>): Result<Value, FieldError>
  {
    if Nullable(k) && !Contains(p, name) then Ok(Null(KindType(k)))
    else
      match k
      case RequiredText => StringMember(p, name)
      case OptionalText => StringMember(p, name)
      case RequiredInt64 => Int64Member(p, name)
      case OptionalInt64 => Int64Member(p, name)
      case OptionalBoolViaInt64 => Int64Member(p, name)
      case OptionalBool =>
        if p.members[name].Boolean? then Ok(BoolValue(p.members[name].b)) else Err(NotAString(name))
      case ObjectDump => Ok(JsonText(p.members[name]))
      case TimestampText =>
        var member := p.members[name];
        if !member.Str? then Err(NotAString(name))
        else match parseTime(member.s)
          case Ok(t) => Ok(TimestampValue(t))
          case Err(err) => Err(BadTimestamp(TimestampMessage(name, member.s, err)))
  }

  /** The column table as written, listed in the key order of its std::map,
      which is GcsIndexing.Names(): the i-th kind extracts the column named
      Names()[i]. */
  function Kinds(): (kinds: seq<Kind>)
    ensures |kinds| == |Names()|
  {
    [ RequiredText,          // bucket
      OptionalText,          // cacheControl
      OptionalInt64,         // componentCount
      OptionalText,          // contentDisposition
      OptionalText,          // contentEncoding
      OptionalText,          // contentLanguage
      OptionalText,          // contentType
      OptionalText,          // crc32c
      TimestampText,         // customTime
      ObjectDump,            // customerEncryption
      OptionalText,          // etag
      OptionalBoolViaInt64,  // eventBasedHold
      RequiredInt64,         // generation
      OptionalText,          // kmsKeyName
      OptionalText,          // md5Hash
      ObjectDump,            // metadata
      RequiredInt64,         // metageneration
      RequiredText,          // name
      ObjectDump,            // owner
      TimestampText,         // retentionExpirationTime
      RequiredInt64,         // size
      OptionalText,          // storageClass
      OptionalBoolViaInt64,  // temporaryHold
      TimestampText,         // timeCreated
      TimestampText,         // timeDeleted
      TimestampText,         // timeStorageClassUpdated
      TimestampText ]        // updated
  }

  /** The positions of the two hold flags in Names(). */
  const EventBasedHoldColumn := 11
  const TemporaryHoldColumn := 22

  lemma HoldColumns()
    ensures Names()[EventBasedHoldColumn] == "eventBasedHold" && Names()[TemporaryHoldColumn] == "temporaryHold"
    ensures forall i :: 0 <= i < |Kinds()| ==>
      (Kinds()[i] == OptionalBoolViaInt64 <==> i == EventBasedHoldColumn || i == TemporaryHoldColumn)
  {
  }

  /** The column table with the two hold flags stored as BOOL values. */
  function CorrectedKinds(): (kinds: seq<Kind>)
    ensures |kinds| == |Names()|
    ensures forall i :: 0 <= i < |kinds| ==> kinds[i] != OptionalBoolViaInt64
  {
    Kinds()[EventBasedHoldColumn := OptionalBool][TemporaryHoldColumn := OptionalBool]
  }

  /** Every kind in both tables declares the type the object index gives
      its column. */
  lemma KindsMatchSchema(i: nat)
    requires i < |Names()|
    ensures KindType(Kinds()[i]) == Schema(Names()[i])
    ensures KindType(CorrectedKinds()[i]) == Schema(Names()[i])
  {
    if i < 5 { KindsMatchSchemaPart1(i); }
    else if i < 9 { KindsMatchSchemaPart2(i); }
    else if i < 14 { KindsMatchSchemaPart3(i); }
    else if i < 18 { KindsMatchSchemaPart4(i); }
    else if i < 23 { KindsMatchSchemaPart5(i); }
    else { KindsMatchSchemaPart6(i); }
  }

  lemma KindsMatchSchemaPart1(i: nat)
    requires 0 <= i < 5
    ensures KindType(Kinds()[i]) == Schema(Names()[i])
    ensures KindType(CorrectedKinds()[i]) == Schema(Names()[i])
  {
    if i == 0 {
      assert Names()[0] == "bucket";
    } else if i == 1 {
      assert Names()[1] == "cacheControl";
    } else if i == 2 {
      assert Names()[2] == "componentCount";
    } else if i == 3 {
      assert Names()[3] == "contentDisposition";
    } else {
      assert Names()[4] == "contentEncoding";
    }
  }

  lemma KindsMatchSchemaPart2(i: nat)
    requires 5 <= i < 9
    ensures KindType(Kinds()[i]) == Schema(Names()[i])
    ensures KindType(CorrectedKinds()[i]) == Schema(Names()[i])
  {
    if i == 5 {
      assert Names()[5] == "contentLanguage";
    } else if i == 6 {
      assert Names()[6] == "contentType";
    } else if i == 7 {
      assert Names()[7] == "crc32c";
    } else {
      assert Names()[8] == "customTime";
    }
  }

  lemma KindsMatchSchemaPart3(i: nat)
    requires 9 <= i < 14
    ensures KindType(Kinds()[i]) == Schema(Names()[i])
    ensures KindType(CorrectedKinds()[i]) == Schema(Names()[i])
  {
    if i == 9 {
      assert Names()[9] == "customerEncryption";
    } else if i == 10 {
      assert Names()[10] == "etag";
    } else if i == 11 {
      assert Names()[11] == "eventBasedHold";
    } else if i == 12 {
      assert Names()[12] == "generation";
    } else {
      assert Names()[13] == "kmsKeyName";
    }
  }

  lemma KindsMatchSchemaPart4(i: nat)
    requires 14 <= i < 18
    ensures KindType(Kinds()[i]) == Schema(Names()[i])
    ensures KindType(CorrectedKinds()[i]) == Schema(Names()[i])
  {
    if i == 14 {
      assert Names()[14] == "md5Hash";
    } else if i == 15 {
      assert Names()[15] == "metadata";
    } else if i == 16 {
      assert Names()[16] == "metageneration";
    } else {
      assert Names()[17] == "name";
    }
  }

  lemma KindsMatchSchemaPart5(i: nat)
    requires 18 <= i < 23
    ensures KindType(Kinds()[i]) == Schema(Names()[i])
    ensures KindType(CorrectedKinds()[i]) == Schema(Names()[i])
  {
    if i == 18 {
      assert Names()[18] == "owner";
    } else if i == 19 {
      assert Names()[19] == "retentionExpirationTime";
    } else if i == 20 {
      assert Names()[20] == "size";
    } else if i == 21 {
      assert Names()[21] == "storageClass";
    } else {
      assert Names()[22] == "temporaryHold";
    }
  }

  lemma KindsMatchSchemaPart6(i: nat)
    requires 23 <= i < 27
    ensures KindType(Kinds()[i]) == Schema(Names()[i])
    ensures KindType(CorrectedKinds()[i]) == Schema(Names()[i])
  {
    if i == 23 {
      assert Names()[23] == "timeCreated";
    } else if i == 24 {
      assert Names()[24] == "timeDeleted";
    } else if i == 25 {
      assert Names()[25] == "timeStorageClassUpdated";
    } else {
      assert Names()[26] == "updated";
    }
  }

  /** A value an extractor returns has the extractor's declared type, except
      for the as-written hold flags, whose present values are INT64. */
  lemma ExtractTyped(k: Kind, p: Json, name: string, parseTime: string -> Result<TimePoint, string>)
    requires Extract(k, p, name, parseTime).Ok?
    ensures k != OptionalBoolViaInt64 ==> TypeOf(Extract(k, p, name, parseTime).value) == KindType(k)
    ensures k == OptionalBoolViaInt64 ==>
      TypeOf(Extract(k, p, name, parseTime).value) == (if Contains(p, name) then Int64Type else BoolType)
  {
  }

  /** An absent optional, object or timestamp member is a NULL of the
      column's type, whatever the rest of the payload holds. */
  lemma AbsentIsNull(k: Kind, p: Json, name: string, parseTime: string -> Result<TimePoint, string>)
    requires Nullable(k) && !Contains(p, name)
    ensures Extract(k, p, name, parseTime) == Ok(Null(KindType(k)))
  {
  }

  /** A present object member is stored as its JSON dump. */
  lemma PresentObjectDumped(p: Json, name: string, parseTime: string -> Result<TimePoint, string>)
    requires Contains(p, name)
    ensures Extract(ObjectDump, p, name, parseTime) == Ok(JsonText(Member(p, name)))
  {
  }

  /** A present timestamp is parsed; a text the parser rejects throws with
      the column name, the text and the parser's error. */
  lemma TimestampParsed(p: Json, name: string, parseTime: string -> Result<TimePoint, string>)
    requires Contains(p, name) && Member(p, name).Str?
    ensures parseTime(Member(p, name).s).Ok? ==>
      Extract(TimestampText, p, name, parseTime) == Ok(TimestampValue(parseTime(Member(p, name).s).value))
    ensures parseTime(Member(p, name).s).Err? ==>
      Extract(TimestampText, p, name, parseTime)
      == Err(BadTimestamp("timestamp p[" + name + "]=" + Member(p, name).s + ": " + parseTime(Member(p, name).s).error))
  {
  }

  /** A required int64 member that is absent is read as "", which std::stoll
      rejects. */
  lemma MissingInt64Throws(p: Json, name: string, parseTime: string -> Result<TimePoint, string>)
    requires p.Object? && name !in p.members
    ensures Extract(RequiredInt64, p, name, parseTime) == Err(Conversion(name, InvalidArgument))
  {
    assert LeadingSpaces("") == 0;
  }

  /** Every decimal int64 written as a JSON string is stored as itself. */
  lemma Int64RoundTrip(p: Json, name: string, n: int, parseTime: string -> Result<TimePoint, string>)
    requires INT64_MIN <= n <= INT64_MAX
    requires Contains(p, name) && Member(p, name) == Str(IntToDecimal(n))
    ensures Extract(RequiredInt64, p, name, parseTime) == Ok(Int64Value(n))
    ensures Extract(OptionalInt64, p, name, parseTime) == Ok(Int64Value(n))
  {
    IntDecimalRoundTrip(n);
  }

  /** The extractor of the i-th name. */
  function ExtractAt(kinds: seq<Kind>, names: seq<string>, p: Json,
                     parseTime: string -> Result<TimePoint, string>, i: nat): Result<Value, FieldError>
    requires i < |names| == |kinds|
  {
    Extract(kinds[i], p, names[i], parseTime)
  }

  /** The extractors of the first k names all succeed. */
  predicate ExtractsThrough(kinds: seq<Kind>, names: seq<string>, p: Json,
                            parseTime: string -> Result<TimePoint, string>, k: nat)
    requires k <= |names| == |kinds|
  {
    forall i :: 0 <= i < k ==> ExtractAt(kinds, names, p, parseTime, i).Ok?
  }

  /** The values of the columns `names`, in order; the first extractor that
      throws ends the transform. */
  function Values(kinds: seq<Kind>, names: seq<string>, p: Json,
                  parseTime: string -> Result<TimePoint, string>): (r: Result<seq<Value>, FieldError>)
    requires |kinds| == |names|
    ensures r.Ok? ==> |r.value| == |names|
  {
    if names == [] then Ok([])
    else match Extract(kinds[0], p, names[0], parseTime)
      case Err(e) => Err(e)
      case Ok(v) =>
        match Values(kinds[1..], names[1..], p, parseTime)
        case Err(e) => Err(e)
        case Ok(vs) => Ok([v] + vs)
  }

  /** Values succeeds exactly when every extractor does; its i-th value is
      the i-th extractor's; a failure is the error of the first extractor
      that fails. */
  lemma {:induction false} ValuesCharacterised(kinds: seq<Kind>, names: seq<string>, p: Json,
                                               parseTime: string -> Result<TimePoint, string>)
    requires |kinds| == |names|
    ensures Values(kinds, names, p, parseTime).Ok? <==> ExtractsThrough(kinds, names, p, parseTime, |names|)
    ensures Values(kinds, names, p, parseTime).Ok? ==>
      forall i :: 0 <= i < |names| ==>
        Values(kinds, names, p, parseTime).value[i] == ExtractAt(kinds, names, p, parseTime, i).value
    ensures Values(kinds, names, p, parseTime).Err? ==>
      exists k :: 0 <= k < |names| && ExtractsThrough(kinds, names, p, parseTime, k)
                  && ExtractAt(kinds, names, p, parseTime, k) == Err(Values(kinds, names, p, parseTime).error)
  {
    if names != [] {
      var rest := names[1..];
      ValuesCharacterised(kinds[1..], rest, p, parseTime);
      forall i | 0 <= i < |rest|
        ensures ExtractAt(kinds, names, p, parseTime, i + 1) == ExtractAt(kinds[1..], rest, p, parseTime, i)
      {
        assert names[i + 1] == rest[i] && kinds[i + 1] == kinds[1..][i];
      }
      var r := Values(kinds, names, p, parseTime);
      var first := ExtractAt(kinds, names, p, parseTime, 0);
      if first.Err? {
        assert ExtractsThrough(kinds, names, p, parseTime, 0);
      } else {
        var tail := Values(kinds[1..], rest, p, parseTime);
        if tail.Ok? {
          assert r == Ok([first.value] + tail.value);
          assert ExtractsThrough(kinds, names, p, parseTime, |names|) by {
            forall i | 0 <= i < |names|
              ensures ExtractAt(kinds, names, p, parseTime, i).Ok?
            {
              if i > 0 {
                assert ExtractAt(kinds, names, p, parseTime, i) == ExtractAt(kinds[1..], rest, p, parseTime, i - 1);
              }
            }
          }
        } else {
          var k :| 0 <= k < |rest| && ExtractsThrough(kinds[1..], rest, p, parseTime, k)
                   && ExtractAt(kinds[1..], rest, p, parseTime, k) == Err(tail.error);
          assert ExtractsThrough(kinds, names, p, parseTime, k + 1) by {
            forall i | 0 <= i < k + 1
              ensures ExtractAt(kinds, names, p, parseTime, i).Ok?
            {
              if i > 0 {
                assert ExtractAt(kinds, names, p, parseTime, i) == ExtractAt(kinds[1..], rest, p, parseTime, i - 1);
              }
            }
          }
          assert !ExtractAt(kinds, names, p, parseTime, k + 1).Ok?;
        }
      }
    }
  }

  /** One extractor that throws makes the whole transform throw. */
  lemma {:induction false} ValuesFailAt(kinds: seq<Kind>, names: seq<string>, p: Json,
                                        parseTime: string -> Result<TimePoint, string>, i: nat)
    requires |kinds| == |names|
    requires i < |names| && ExtractAt(kinds, names, p, parseTime, i).Err?
    ensures Values(kinds, names, p, parseTime).Err?
  {
    if i > 0 {
      assert names[1..][i - 1] == names[i] && kinds[1..][i - 1] == kinds[i];
      ValuesFailAt(kinds[1..], names[1..], p, parseTime, i - 1);
    }
  }

  /** UpdateObjectMetadata: one insert-or-update of `gcs_objects` with a
      value for every column, in name order. */
  function UpdateObjectMetadata(kinds: seq<Kind>, p: Json,
                                parseTime: string -> Result<TimePoint, string>): (r: Result<Mutation, FieldError>)
    requires |kinds| == |Names()|
    ensures r.Ok? ==> r.value.InsertOrUpdate? && r.value.table == Table && r.value.columns == Names()
    ensures r.Ok? ==> |r.value.row| == |Names()|
  {
    match Values(kinds, Names(), p, parseTime)
    case Err(e) => Err(e)
    case Ok(vs) => Ok(InsertOrUpdate(Table, Names(), vs))
  }

  /** DeleteObjectMetadata: a delete of the key (bucket, name, generation),
      the three values extracted in that order. */
  function DeleteObjectMetadata(p: Json): (r: Result<Mutation, FieldError>)
    ensures r.Ok? <==> StringMember(p, "bucket").Ok? && StringMember(p, "name").Ok? && Int64Member(p, "generation").Ok?
    ensures r.Ok? ==>
      r.value == Delete(Table, [StringMember(p, "bucket").value, StringMember(p, "name").value,
                                Int64Member(p, "generation").value])
    ensures StringMember(p, "bucket").Err? ==> r == Err(StringMember(p, "bucket").error)
    ensures StringMember(p, "bucket").Ok? && StringMember(p, "name").Err? ==> r == Err(StringMember(p, "name").error)
  {
    match StringMember(p, "bucket")
    case Err(e) => Err(e)
    case Ok(bucket) =>
      match StringMember(p, "name")
      case Err(e) => Err(e)
      case Ok(name) =>
        match Int64Member(p, "generation")
        case Err(e) => Err(e)
        case Ok(generation) => Ok(Delete(Table, [bucket, name, generation]))
  }

  /** The delete key holds the payload's bucket, name and generation. */
  lemma DeleteKeyOrder(p: Json, bucket: string, name: string, generation: int)
    requires INT64_MIN <= generation <= INT64_MAX
    requires p == Object(map["bucket" := Str(bucket), "name" := Str(name), "generation" := Str(IntToDecimal(generation))])
    ensures DeleteObjectMetadata(p)
            == Ok(Delete("gcs_objects", [StringValue(bucket), StringValue(name), Int64Value(generation)]))
  {
    IntDecimalRoundTrip(generation);
  }

  /** A CloudEvent: its type and its data, None when it carries none. */
  datatype CloudEvent = CloudEvent(eventType: string, data: Option<Json>)

  const DeletedEvent := "google.cloud.storage.object.v1.deleted"

  /** The parsed payload: the event data, or "{}" when there is none. */
  function Payload(e: CloudEvent): (p: Json)
    ensures e.data.None? ==> p == EmptyObject
    ensures e.data.Some? ==> p == e.data.value
  {
    if e.data.Some? then e.data.value else EmptyObject
  }

  /** How UpdateGcsIndex ends: the committed mutations, or the exception the
      mutator or `.value()` of the failed commit raises. */
  datatype IndexError = ExtractFailed(error: FieldError) | CommitFailed(status: string)

  /** The mutations the commit callback returns for an event. */
  function EventMutations(kinds: seq<Kind>, e: CloudEvent,
                          parseTime: string -> Result<TimePoint, string>): (r: Result<seq<Mutation>, FieldError>)
    requires |kinds| == |Names()|
    ensures r.Ok? ==> |r.value| == 1
    ensures r.Ok? ==> (r.value[0].Delete? <==> e.eventType == DeletedEvent)
    ensures e.eventType == DeletedEvent ==>
      r == (match DeleteObjectMetadata(Payload(e)) case Ok(m) => Ok([m]) case Err(x) => Err(x))
    ensures e.eventType != DeletedEvent ==>
      r == (match UpdateObjectMetadata(kinds, Payload(e), parseTime) case Ok(m) => Ok([m]) case Err(x) => Err(x))
  {
    var payload := Payload(e);
    if e.eventType == DeletedEvent then
      match DeleteObjectMetadata(payload)
      case Err(x) => Err(x)
      case Ok(m) => Ok([m])
    else
      match UpdateObjectMetadata(kinds, payload, parseTime)
      case Err(x) => Err(x)
      case Ok(m) => Ok([m])
  }

  /** UpdateGcsIndex: commit the event's mutations; `commitError` is the
      status of a failed commit. */
  function UpdateGcsIndex(kinds: seq<Kind>, e: CloudEvent, parseTime: string -> Result<TimePoint, string>,
                          commitError: Option<string>): (r: Result<seq<Mutation>, IndexError>)
    requires |kinds| == |Names()|
    ensures r.Ok? <==> EventMutations(kinds, e, parseTime).Ok? && commitError.None?
    ensures r.Ok? ==> r.value == EventMutations(kinds, e, parseTime).value
    ensures EventMutations(kinds, e, parseTime).Err? ==> r == Err(ExtractFailed(EventMutations(kinds, e, parseTime).error))
  {
    match EventMutations(kinds, e, parseTime)
    case Err(x) => Err(ExtractFailed(x))
    case Ok(ms) => if commitError.Some? then Err(CommitFailed(commitError.value)) else Ok(ms)
  }

  /** An event without data is handled as "{}": both kinds of event then
      fail at the first column read, `bucket`. */
  lemma MissingDataFailsAtBucket(e: CloudEvent, parseTime: string -> Result<TimePoint, string>, commitError: Option<string>)
    requires e.data.None?
    ensures UpdateGcsIndex(Kinds(), e, parseTime, commitError) == Err(ExtractFailed(MissingField("bucket")))
    ensures UpdateGcsIndex(CorrectedKinds(), e, parseTime, commitError) == Err(ExtractFailed(MissingField("bucket")))
  {
    assert Names()[0] == "bucket";
    assert Kinds()[0] == RequiredText && CorrectedKinds()[0] == RequiredText;
  }

  /** As written, a payload whose temporaryHold is a JSON boolean cannot be
      indexed: the hold goes through std::stoll of a string, and
      `value<std::string>` throws on the boolean. */
  lemma HoldFlagRejected(p: Json, b: bool, parseTime: string -> Result<TimePoint, string>)
    requires Contains(p, "temporaryHold") && Member(p, "temporaryHold") == Boolean(b)
    ensures Extract(Kinds()[TemporaryHoldColumn], p, "temporaryHold", parseTime) == Err(NotAString("temporaryHold"))
    ensures UpdateObjectMetadata(Kinds(), p, parseTime).Err?
  {
    HoldColumns();
    ValuesFailAt(Kinds(), Names(), p, parseTime, TemporaryHoldColumn);
  }

  /** With the corrected table a JSON boolean hold is stored as a BOOL. */
  lemma CorrectedHoldStored(p: Json, b: bool, parseTime: string -> Result<TimePoint, string>)
    requires Contains(p, "temporaryHold") && Member(p, "temporaryHold") == Boolean(b)
    ensures Extract(CorrectedKinds()[TemporaryHoldColumn], p, "temporaryHold", parseTime) == Ok(BoolValue(b))
    ensures UpdateObjectMetadata(CorrectedKinds(), p, parseTime).Ok? ==>
      UpdateObjectMetadata(CorrectedKinds(), p, parseTime).value.row[TemporaryHoldColumn] == BoolValue(b)
  {
    HoldColumns();
    ValuesCharacterised(CorrectedKinds(), Names(), p, parseTime);
  }

  /** Without as-written hold flags, every value of a row has its kind's type. */
  lemma ValuesTyped(kinds: seq<Kind>, names: seq<string>, p: Json, parseTime: string -> Result<TimePoint, string>)
    requires |kinds| == |names| && Values(kinds, names, p, parseTime).Ok?
    requires forall i :: 0 <= i < |kinds| ==> kinds[i] != OptionalBoolViaInt64
    ensures forall i :: 0 <= i < |names| ==> TypeOf(Values(kinds, names, p, parseTime).value[i]) == KindType(kinds[i])
  {
    ValuesCharacterised(kinds, names, p, parseTime);
    forall i | 0 <= i < |names|
      ensures TypeOf(Values(kinds, names, p, parseTime).value[i]) == KindType(kinds[i])
    {
      assert ExtractAt(kinds, names, p, parseTime, i).Ok?;
      ExtractTyped(kinds[i], p, names[i], parseTime);
    }
  }

  /** With the corrected table every row written fits the table schema. */
  lemma CorrectedRowFitsSchema(p: Json, parseTime: string -> Result<TimePoint, string>)
    requires UpdateObjectMetadata(CorrectedKinds(), p, parseTime).Ok?
    ensures forall i :: 0 <= i < |Names()| ==>
      TypeOf(UpdateObjectMetadata(CorrectedKinds(), p, parseTime).value.row[i]) == Schema(Names()[i])
  {
    var kinds := CorrectedKinds();
    ValuesTyped(kinds, Names(), p, parseTime);
    forall i | 0 <= i < |Names()|
      ensures TypeOf(UpdateObjectMetadata(kinds, p, parseTime).value.row[i]) == Schema(Names()[i])
    {
      KindsMatchSchema(i);
    }
  }
}
