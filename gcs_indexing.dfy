// The row the GCS indexing samples write for one object
// (getting-started/gcs_indexing.cc): a table of 27 named column extractors,
// the column names in key order, and the insert-or-update mutation of the
// object's row in `gcs_objects`.
module GcsIndexing {
  import opened Wrappers
  import opened Text
  import opened JsonValue

  /** A time point, in nanoseconds from the epoch; 0 is the default-constructed one. */
  type TimePoint = int

  const Epoch: TimePoint := 0

  datatype Owner = Owner(entity: string, entityId: string)

  datatype CustomerEncryption = CustomerEncryption(encryptionAlgorithm: string, keySha256: string)

  /** gcs::ObjectMetadata, the fields the index stores. `size` is unsigned. */
  datatype ObjectMetadata = ObjectMetadata(
    name: string,
    bucket: string,
    generation: int,
    metageneration: int,
    timeCreated: TimePoint,
    updated: TimePoint,
    timeDeleted: TimePoint,
    customTime: TimePoint,
    temporaryHold: bool,
    eventBasedHold: bool,
    retentionExpirationTime: TimePoint,
    storageClass: string,
    timeStorageClassUpdated: TimePoint,
    size: nat,
    crc32c: string,
    md5Hash: string,
    contentType: string,
    contentEncoding: string,
    contentDisposition: string,
    contentLanguage: string,
    cacheControl: string,
    metadata: map<string, string>,
    owner: Option<Owner>,
    componentCount: int,
    etag: string,
    customerEncryption: Option<CustomerEncryption>,
    kmsKeyName: string)

  /** The Spanner column types of `gcs_objects`. */
  datatype ValueType = StringType | Int64Type | BoolType | TimestampType

  /** spanner::Value. A NULL carries its type; `JsonText(j)` is the STRING
      holding `j.dump()`. */
  datatype Value =
    | Null(ty: ValueType)
    | StringValue(s: string)
    | Int64Value(i: int)
    | BoolValue(b: bool)
    | TimestampValue(t: TimePoint)
    | JsonText(json: Json)

  function TypeOf(v: Value): ValueType
  {
    match v
    case Null(ty) => ty
    case StringValue(_) => StringType
    case Int64Value(_) => Int64Type
    case BoolValue(_) => BoolType
    case TimestampValue(_) => TimestampType
    case JsonText(_) => StringType
  }

  /** spanner::Mutation, as far as the samples build them. */
  datatype Mutation =
    | InsertOrUpdate(table: string, columns: seq<string>, row: seq<Value>)
    | Delete(table: string, key: seq<Value>)

  const Table := "gcs_objects"

  /** The four kinds of extractor: a plain field, a string stored as NULL when
      empty, a time point stored as NULL when it is the epoch, and a custom one. */
  datatype Column =
    | Field(get: ObjectMetadata -> Value)
    | OptionalString(text: ObjectMetadata -> string)
    | Timestamp(time: ObjectMetadata -> TimePoint)
    | Custom(get: ObjectMetadata -> Value)

  function Apply(c: Column, o: ObjectMetadata): Value
  {
    match c
    case Field(get) => get(o)
    case OptionalString(text) => if text(o) == "" then Null(StringType) else StringValue(text(o))
    case Timestamp(time) => if time(o) == Epoch then Null(TimestampType) else TimestampValue(time(o))
    case Custom(get) => get(o)
  }

  /** static_cast<std::int64_t> of an unsigned 64-bit value. */
  function Int64Cast(n: nat): (r: int)
    requires n < 0x1_0000_0000_0000_0000
    ensures INT64_MIN <= r <= INT64_MAX
    ensures r == n <==> n <= INT64_MAX
    ensures (r - n) % 0x1_0000_0000_0000_0000 == 0
  {
    if n <= INT64_MAX then n else n - 0x1_0000_0000_0000_0000
  }

  /** The object's size as the int64 column stores it. */
  function SizeValue(o: ObjectMetadata): Value
  {
    Int64Value(Int64Cast(o.size % 0x1_0000_0000_0000_0000))
  }

  /** The `metadata` column's JSON value. It starts as null and becomes an
      object on the first key assigned, so it stays null when the object has
      no custom metadata, and otherwise maps each key to its string. */
  function MetadataJson(o: ObjectMetadata): (j: Json)
    ensures j == JsonNull <==> o.metadata == map[]
    ensures j != JsonNull ==>
      j.Object? && j.members.Keys == o.metadata.Keys
      && forall k :: k in o.metadata ==> j.members[k] == Str(o.metadata[k])
  {
    if o.metadata == map[] then JsonNull
    else Object(map k | k in o.metadata :: Str(o.metadata[k]))
  }

  function OwnerValue(o: ObjectMetadata): Value
  {
    match o.owner
    case None => Null(StringType)
    case Some(w) => JsonText(Object(map["entity" := Str(w.entity), "entityId" := Str(w.entityId)]))
  }

  function EncryptionValue(o: ObjectMetadata): Value
  {
    match o.customerEncryption
    case None => Null(StringType)
    case Some(e) =>
      JsonText(Object(map["encryptionAlgorithm" := Str(e.encryptionAlgorithm), "keySha256" := Str(e.keySha256)]))
  }

  /** The std::map of column name to extractor. */
  function Columns(): map<string, Column>
  {
    map[
      "name" := Field((o: ObjectMetadata) => StringValue(o.name)),
      "bucket" := Field((o: ObjectMetadata) => StringValue(o.bucket)),
      "generation" := Field((o: ObjectMetadata) => Int64Value(o.generation)),
      "metageneration" := Field((o: ObjectMetadata) => Int64Value(o.metageneration)),
      "timeCreated" := Timestamp((o: ObjectMetadata) => o.timeCreated),
      "updated" := Timestamp((o: ObjectMetadata) => o.updated),
      "timeDeleted" := Timestamp((o: ObjectMetadata) => o.timeDeleted),
      "customTime" := Timestamp((o: ObjectMetadata) => o.customTime),
      "temporaryHold" := Field((o: ObjectMetadata) => BoolValue(o.temporaryHold)),
      "eventBasedHold" := Field((o: ObjectMetadata) => BoolValue(o.eventBasedHold)),
      "retentionExpirationTime" := Timestamp((o: ObjectMetadata) => o.retentionExpirationTime),
      "storageClass" := Field((o: ObjectMetadata) => StringValue(o.storageClass)),
      "timeStorageClassUpdated" := Timestamp((o: ObjectMetadata) => o.timeStorageClassUpdated),
      "size" := Field(SizeValue),
      "crc32c" := Field((o: ObjectMetadata) => StringValue(o.crc32c)),
      "md5Hash" := OptionalString((o: ObjectMetadata) => o.md5Hash),
      "contentType" := OptionalString((o: ObjectMetadata) => o.contentType),
      "contentEncoding" := OptionalString((o: ObjectMetadata) => o.contentEncoding),
      "contentDisposition" := OptionalString((o: ObjectMetadata) => o.contentDisposition),
      "contentLanguage" := OptionalString((o: ObjectMetadata) => o.contentLanguage),
      "cacheControl" := OptionalString((o: ObjectMetadata) => o.cacheControl),
      "metadata" := Field((o: ObjectMetadata) => JsonText(MetadataJson(o))),
      "owner" := Custom(OwnerValue),
      "componentCount" := Field((o: ObjectMetadata) => Int64Value(o.componentCount)),
      "etag" := OptionalString((o: ObjectMetadata) => o.etag),
      "customerEncryption" := Custom(EncryptionValue),
      "kmsKeyName" := OptionalString((o: ObjectMetadata) => o.kmsKeyName)
    ]
  }

  /** The map's keys in iteration order. */
  function Names(): seq<string>
  {
    ["bucket", "cacheControl", "componentCount", "contentDisposition", "contentEncoding",
     "contentLanguage", "contentType", "crc32c", "customTime", "customerEncryption", "etag",
     "eventBasedHold", "generation", "kmsKeyName", "md5Hash", "metadata", "metageneration",
     "name", "owner", "retentionExpirationTime", "size", "storageClass", "temporaryHold",
     "timeCreated", "timeDeleted", "timeStorageClassUpdated", "updated"]
  }

  /** std::string's operator<: lexicographic by character code. */
  predicate Less(a: string, b: string)
  {
    LessFrom(a, b, 0)
  }

  /** a is below b, given that they agree before position i. */
  predicate LessFrom(a: string, b: string, i: nat)
    decreases |a| - i
  {
    if i >= |a| then i < |b|
    else i < |b| && (a[i] < b[i] || (a[i] == b[i] && LessFrom(a, b, i + 1)))
  }

  predicate StrictlyIncreasing(names: seq<string>)
  {
    forall i :: 0 < i < |names| ==> Less(names[i - 1], names[i])
  }

  lemma {:induction false} LessIrreflexive(a: string, i: nat)
    ensures !LessFrom(a, a, i)
    decreases |a| - i
  {
    if i < |a| {
      LessIrreflexive(a, i + 1);
    }
  }

  lemma {:induction false} LessTransitive(a: string, b: string, c: string, i: nat)
    requires LessFrom(a, b, i) && LessFrom(b, c, i)
    ensures LessFrom(a, c, i)
    decreases |a| - i
  {
    if i < |a| && a[i] == b[i] && b[i] == c[i] {
      LessTransitive(a, b, c, i + 1);
    }
  }

  /** In a strictly increasing list, an earlier name is below a later one. */
  lemma {:induction false} IncreasingIsSorted(names: seq<string>, i: nat, j: nat)
    requires StrictlyIncreasing(names) && i < j < |names|
    ensures Less(names[i], names[j])
    decreases j - i
  {
    if i + 1 < j {
      IncreasingIsSorted(names, i + 1, j);
      LessTransitive(names[i], names[i + 1], names[j], 0);
    }
  }

  /** A strictly increasing list has no repeated name. */
  lemma IncreasingIsDistinct(names: seq<string>, i: nat, j: nat)
    requires StrictlyIncreasing(names) && i < j < |names|
    ensures names[i] != names[j]
  {
    IncreasingIsSorted(names, i, j);
    LessIrreflexive(names[i], 0);
  }

  /** Consecutive names increase, shown pair by pair, the common prefix
      character by character. */
  lemma NamesIncreasePart1(i: nat)
    requires 1 <= i < 6
    ensures Less(Names()[i - 1], Names()[i])
  {
    var a, b := Names()[i - 1], Names()[i];
    if i == 1 {
      assert a == "bucket" && b == "cacheControl";
      assert LessFrom(a, b, 0);
    } else if i == 2 {
      assert a == "cacheControl" && b == "componentCount";
      assert LessFrom(a, b, 1); assert LessFrom(a, b, 0);
    } else if i == 3 {
      assert a == "componentCount" && b == "contentDisposition";
      assert LessFrom(a, b, 2); assert LessFrom(a, b, 1); assert LessFrom(a, b, 0);
    } else if i == 4 {
      assert a == "contentDisposition" && b == "contentEncoding";
      assert LessFrom(a, b, 7); assert LessFrom(a, b, 6); assert LessFrom(a, b, 5); assert LessFrom(a, b, 4); assert LessFrom(a, b, 3); assert LessFrom(a, b, 2); assert LessFrom(a, b, 1); assert LessFrom(a, b, 0);
    } else {
      assert a == "contentEncoding" && b == "contentLanguage";
      assert LessFrom(a, b, 7); assert LessFrom(a, b, 6); assert LessFrom(a, b, 5); assert LessFrom(a, b, 4); assert LessFrom(a, b, 3); assert LessFrom(a, b, 2); assert LessFrom(a, b, 1); assert LessFrom(a, b, 0);
    }
  }

  lemma NamesIncreasePart2(i: nat)
    requires 6 <= i < 10
    ensures Less(Names()[i - 1], Names()[i])
  {
    var a, b := Names()[i - 1], Names()[i];
    if i == 6 {
      assert a == "contentLanguage" && b == "contentType";
      assert LessFrom(a, b, 7); assert LessFrom(a, b, 6); assert LessFrom(a, b, 5); assert LessFrom(a, b, 4); assert LessFrom(a, b, 3); assert LessFrom(a, b, 2); assert LessFrom(a, b, 1); assert LessFrom(a, b, 0);
    } else if i == 7 {
      assert a == "contentType" && b == "crc32c";
      assert LessFrom(a, b, 1); assert LessFrom(a, b, 0);
    } else if i == 8 {
      assert a == "crc32c" && b == "customTime";
      assert LessFrom(a, b, 1); assert LessFrom(a, b, 0);
    } else {
      assert a == "customTime" && b == "customerEncryption";
      assert LessFrom(a, b, 6); assert LessFrom(a, b, 5); assert LessFrom(a, b, 4); assert LessFrom(a, b, 3); assert LessFrom(a, b, 2); assert LessFrom(a, b, 1); assert LessFrom(a, b, 0);
    }
  }

  lemma NamesIncreasePart3(i: nat)
    requires 10 <= i < 19
    ensures Less(Names()[i - 1], Names()[i])
  {
    var a, b := Names()[i - 1], Names()[i];
    if i == 10 {
      assert a == "customerEncryption" && b == "etag";
      assert LessFrom(a, b, 0);
    } else if i == 11 {
      assert a == "etag" && b == "eventBasedHold";
      assert LessFrom(a, b, 1); assert LessFrom(a, b, 0);
    } else if i == 12 {
      assert a == "eventBasedHold" && b == "generation";
      assert LessFrom(a, b, 0);
    } else if i == 13 {
      assert a == "generation" && b == "kmsKeyName";
      assert LessFrom(a, b, 0);
    } else if i == 14 {
      assert a == "kmsKeyName" && b == "md5Hash";
      assert LessFrom(a, b, 0);
    } else if i == 15 {
      assert a == "md5Hash" && b == "metadata";
      assert LessFrom(a, b, 1); assert LessFrom(a, b, 0);
    } else if i == 16 {
      assert a == "metadata" && b == "metageneration";
      assert LessFrom(a, b, 4); assert LessFrom(a, b, 3); assert LessFrom(a, b, 2); assert LessFrom(a, b, 1); assert LessFrom(a, b, 0);
    } else if i == 17 {
      assert a == "metageneration" && b == "name";
      assert LessFrom(a, b, 0);
    } else {
      assert a == "name" && b == "owner";
      assert LessFrom(a, b, 0);
    }
  }

  lemma NamesIncreasePart4(i: nat)
    requires 19 <= i < 27
    ensures Less(Names()[i - 1], Names()[i])
  {
    var a, b := Names()[i - 1], Names()[i];
    if i == 19 {
      assert a == "owner" && b == "retentionExpirationTime";
      assert LessFrom(a, b, 0);
    } else if i == 20 {
      assert a == "retentionExpirationTime" && b == "size";
      assert LessFrom(a, b, 0);
    } else if i == 21 {
      assert a == "size" && b == "storageClass";
      assert LessFrom(a, b, 1); assert LessFrom(a, b, 0);
    } else if i == 22 {
      assert a == "storageClass" && b == "temporaryHold";
      assert LessFrom(a, b, 0);
    } else if i == 23 {
      assert a == "temporaryHold" && b == "timeCreated";
      assert LessFrom(a, b, 1); assert LessFrom(a, b, 0);
    } else if i == 24 {
      assert a == "timeCreated" && b == "timeDeleted";
      assert LessFrom(a, b, 4); assert LessFrom(a, b, 3); assert LessFrom(a, b, 2); assert LessFrom(a, b, 1); assert LessFrom(a, b, 0);
    } else if i == 25 {
      assert a == "timeDeleted" && b == "timeStorageClassUpdated";
      assert LessFrom(a, b, 4); assert LessFrom(a, b, 3); assert LessFrom(a, b, 2); assert LessFrom(a, b, 1); assert LessFrom(a, b, 0);
    } else {
      assert a == "timeStorageClassUpdated" && b == "updated";
      assert LessFrom(a, b, 0);
    }
  }

  lemma NamesIncrease()
    ensures StrictlyIncreasing(Names())
  {
    forall i | 0 < i < |Names()|
      ensures Less(Names()[i - 1], Names()[i])
    {
      if i < 6 { NamesIncreasePart1(i); }
      else if i < 10 { NamesIncreasePart2(i); }
      else if i < 19 { NamesIncreasePart3(i); }
      else if i < 27 { NamesIncreasePart4(i); }
    }
  }

  /** Names() lists exactly the keys of Columns(). */
  lemma NamesAreColumns()
    ensures forall n :: n in Columns() <==> n in Names()
  {
  }

  /** ColumnCount(): the number of columns. */
  function ColumnCount(): nat
  {
    |Columns()|
  }

  lemma NamesDistinct()
    ensures forall i, j :: 0 <= i < j < |Names()| ==> Names()[i] != Names()[j]
  {
    NamesIncrease();
    forall i, j | 0 <= i < j < |Names()|
      ensures Names()[i] != Names()[j]
    {
      IncreasingIsDistinct(Names(), i, j);
    }
  }

  /** A list without repeats has as many elements as its set. */
  lemma {:induction false} DistinctCardinality(s: seq<string>)
    requires forall i, j :: 0 <= i < j < |s| ==> s[i] != s[j]
    ensures |set x | x in s| == |s|
  {
    if s != [] {
      var t := s[..|s| - 1];
      DistinctCardinality(t);
      assert (set x | x in s) == (set x | x in t) + {s[|s| - 1]};
      assert s[|s| - 1] !in t;
    }
  }

  /** ColumnCount() is the length of Names(): 27. */
  lemma TwentySevenColumns()
    ensures ColumnCount() == |Names()| == 27
  {
    NamesAreColumns();
    NamesDistinct();
    DistinctCardinality(Names());
    assert Columns().Keys == set x | x in Names();
  }

  /** UpdateObjectMetadata: one insert-or-update row of `gcs_objects`, the
      i-th value extracted by the i-th column. */
  function UpdateObjectMetadata(o: ObjectMetadata): (m: Mutation)
    ensures m.InsertOrUpdate? && m.table == Table && m.columns == Names()
    ensures |m.row| == |Names()|
  {
    NamesAreColumns();
    InsertOrUpdate(Table, Names(), seq(|Names()|, i requires 0 <= i < |Names()| => Apply(Columns()[Names()[i]], o)))
  }

  /** The value in the row under a column name is that column's extractor
      applied to the object. */
  lemma ValueUnderName(o: ObjectMetadata, i: nat)
    requires i < |Names()|
    ensures Names()[i] in Columns()
    ensures UpdateObjectMetadata(o).row[i] == Apply(Columns()[Names()[i]], o)
  {
    NamesAreColumns();
  }

  /** The column types of `gcs_objects`. */
  function Schema(name: string): ValueType
  {
    if name in {"generation", "metageneration", "size", "componentCount"} then Int64Type
    else if name in {"temporaryHold", "eventBasedHold"} then BoolType
    else if name in {"timeCreated", "updated", "timeDeleted", "customTime",
                     "retentionExpirationTime", "timeStorageClassUpdated"} then TimestampType
    else StringType
  }

  /** Every column yields a value of its schema type for every object, NULLs included. */
  lemma ColumnsTyped(name: string, o: ObjectMetadata)
    requires name in Columns()
    ensures TypeOf(Apply(Columns()[name], o)) == Schema(name)
  {
    var c := Columns()[name];
    if c.OptionalString? || c.Timestamp? {
      NullableColumnsTyped(name, o);
    } else {
      PlainColumnsTyped(name, o);
    }
  }

  lemma NullableColumnsTyped(name: string, o: ObjectMetadata)
    requires name in Columns() && (Columns()[name].OptionalString? || Columns()[name].Timestamp?)
    ensures TypeOf(Apply(Columns()[name], o)) == Schema(name)
  {
    assert name in {"md5Hash", "contentType", "contentEncoding", "contentDisposition", "contentLanguage",
                    "cacheControl", "etag", "kmsKeyName", "timeCreated", "updated", "timeDeleted",
                    "customTime", "retentionExpirationTime", "timeStorageClassUpdated"};
  }

  lemma PlainColumnsTyped(name: string, o: ObjectMetadata)
    requires name in Columns() && (Columns()[name].Field? || Columns()[name].Custom?)
    ensures TypeOf(Apply(Columns()[name], o)) == Schema(name)
  {
    assert name in {"name", "bucket", "generation", "metageneration", "temporaryHold", "eventBasedHold",
                    "storageClass", "size", "crc32c", "metadata", "owner", "componentCount",
                    "customerEncryption"};
  }

  /** The row fits the table schema. */
  lemma RowFitsSchema(o: ObjectMetadata)
    ensures forall i :: 0 <= i < |Names()| ==> TypeOf(UpdateObjectMetadata(o).row[i]) == Schema(Names()[i])
  {
    forall i | 0 <= i < |Names()|
      ensures TypeOf(UpdateObjectMetadata(o).row[i]) == Schema(Names()[i])
    {
      ValueUnderName(o, i);
      ColumnsTyped(Names()[i], o);
    }
  }

  /** Optional strings: empty is a NULL string, anything else the string itself. */
  lemma OptionalStringColumns(o: ObjectMetadata)
    ensures Apply(Columns()["contentType"], o)
            == (if o.contentType == "" then Null(StringType) else StringValue(o.contentType))
    ensures Apply(Columns()["etag"], o) == (if o.etag == "" then Null(StringType) else StringValue(o.etag))
    ensures Apply(Columns()["md5Hash"], o) == (if o.md5Hash == "" then Null(StringType) else StringValue(o.md5Hash))
  {
  }

  /** Timestamps: the epoch is a NULL timestamp, any other time point itself. */
  lemma TimestampColumns(o: ObjectMetadata)
    ensures Apply(Columns()["timeDeleted"], o)
            == (if o.timeDeleted == Epoch then Null(TimestampType) else TimestampValue(o.timeDeleted))
    ensures Apply(Columns()["customTime"], o)
            == (if o.customTime == Epoch then Null(TimestampType) else TimestampValue(o.customTime))
  {
  }

  /** `owner` and `customerEncryption` are NULL strings exactly when absent. */
  lemma AbsentObjectsAreNull(o: ObjectMetadata)
    ensures Apply(Columns()["owner"], o) == Null(StringType) <==> o.owner.None?
    ensures Apply(Columns()["customerEncryption"], o) == Null(StringType) <==> o.customerEncryption.None?
  {
  }

  /** `metadata` holds the JSON text "null" exactly when the object has no
      custom metadata, and an object of its entries otherwise. */
  lemma MetadataColumn(o: ObjectMetadata)
    ensures Apply(Columns()["metadata"], o) == JsonText(JsonNull) <==> o.metadata == map[]
    ensures o.metadata != map[] ==>
      Apply(Columns()["metadata"], o).JsonText? && Apply(Columns()["metadata"], o).json.Object?
      && Apply(Columns()["metadata"], o).json.members.Keys == o.metadata.Keys
  {
  }

  /** The size column keeps sizes up to INT64_MAX and wraps larger ones negative. */
  lemma SizeStored(o: ObjectMetadata)
    requires o.size < 0x1_0000_0000_0000_0000
    ensures Apply(Columns()["size"], o) == Int64Value(if o.size <= INT64_MAX then o.size else o.size - 0x1_0000_0000_0000_0000)
  {
  }

  /** GetEnv: the value of a set variable; an unset one raises an error naming it. */
  function GetEnv(env: map<string, string>, variable: string): (r: Result<string, string>)
    ensures r.Ok? <==> variable in env
    ensures r.Ok? ==> r.value == env[variable]
    ensures r.Err? ==> r.error == "Environment variable " + variable + " is not set"
  {
    if variable !in env then Err("Environment variable " + variable + " is not set")
    else Ok(env[variable])
  }
}
