/** populate-bucket (populate-bucket/populate_bucket.cc): the `schedule`
    action splits a number of objects into work items and publishes each as a
    Pub/Sub message whose attributes describe it; the `worker` action parses
    each message back and creates the objects it names. The Pub/Sub and GCS
    calls, the random number generator and CRC-32C are parameters here. */
module PopulateBucket {
  import opened Wrappers
  import opened Text
  import Download

  // ---------------------------------------------------------------------
  // random_alphanum_string.

  /** The characters the random name fragments are meant to draw from. */
  const Alphabet: string := "abcdefghijklmnopqrstuvwxyz0123456789"

  /** The C character array that holds the alphabet also holds the string's
      terminating NUL, so its sizeof is 37. */
  const AlphabetArray: string := Alphabet + ['\0']

  predicate IsAlphanumeric(c: char) { 'a' <= c <= 'z' || '0' <= c <= '9' }

  /** Every draw of the uniform distribution lies in [0, bound). */
  predicate DrawsBelow(draws: seq<int>, bound: int)
  {
    forall i :: 0 <= i < |draws| ==> 0 <= draws[i] < bound
  }

  lemma AlphabetIsAlphanumeric()
    ensures |Alphabet| == 36 && |AlphabetArray| == 37
    ensures forall j :: 0 <= j < |Alphabet| ==> IsAlphanumeric(Alphabet[j])
    ensures AlphabetArray[36] == '\0'
  {
  }

  /** random_alphanum_string as written: one character per draw, each draw
      uniform over [0, sizeof(alphabet) - 1] = [0, 36]. */
  function RandomAlphanumAsWritten(draws: seq<int>): (r: string)
    requires DrawsBelow(draws, |AlphabetArray|)
    ensures |r| == |draws|
  {
    seq(|draws|, i requires 0 <= i < |draws| => AlphabetArray[draws[i]])
  }

  /** As written, a character of the fragment falls outside the alphabet
      exactly when its draw is the top index 36, which selects the NUL. */
  lemma {:induction false} AsWrittenLeavesAlphabet(draws: seq<int>, i: int)
    requires DrawsBelow(draws, |AlphabetArray|) && 0 <= i < |draws|
    ensures !IsAlphanumeric(RandomAlphanumAsWritten(draws)[i]) <==> draws[i] == 36
    ensures draws[i] == 36 ==> RandomAlphanumAsWritten(draws)[i] == '\0'
  {
    AlphabetIsAlphanumeric();
    if draws[i] < 36 {
      assert AlphabetArray[draws[i]] == Alphabet[draws[i]];
    }
  }

  /** A single draw of 36 yields a NUL character in the object name. */
  lemma NulCharacterDrawn()
    ensures DrawsBelow([36], |AlphabetArray|)
    ensures RandomAlphanumAsWritten([36]) == ['\0']
  {
    AsWrittenLeavesAlphabet([36], 0);
  }

  /** random_alphanum_string with the distribution over [0, 35], the
      alphabet's own length: exactly one alphanumeric character per draw. */
  function RandomAlphanum(draws: seq<int>): (r: string)
    requires DrawsBelow(draws, |Alphabet|)
    ensures |r| == |draws|
    ensures forall i :: 0 <= i < |r| ==> IsAlphanumeric(r[i])
  {
    AlphabetIsAlphanumeric();
    seq(|draws|, i requires 0 <= i < |draws| => Alphabet[draws[i]])
  }

  /** The draws behind one 32-character name fragment: from [0, 36] as
      written, from [0, 35] when corrected. */
  predicate FragmentDraws(draws: seq<int>, asWritten: bool)
  {
    |draws| == 32 && DrawsBelow(draws, if asWritten then |AlphabetArray| else |Alphabet|)
  }

  /** The 32-character fragment random_alphanum_string makes from the draws,
      as written or corrected. */
  function Fragment(draws: seq<int>, asWritten: bool): (r: string)
    requires FragmentDraws(draws, asWritten)
    ensures |r| == 32
  {
    if asWritten then RandomAlphanumAsWritten(draws) else RandomAlphanum(draws)
  }

  // ---------------------------------------------------------------------
  // hashed_name.

  /** hashed_name: the name itself, or with hashing on the eight lower-case
      hex digits of the name's CRC-32C (crc32c), then '_', then the name. */
  function HashedName(useHashPrefix: bool, objectName: string, crc32c: string -> bv32): string
  {
    if !useHashPrefix then objectName else Hex8(crc32c(objectName) as nat) + "_" + objectName
  }

  /** With hashing on, the name is exactly nine characters longer: "%08x_"
      of a 32-bit value needs 10 bytes with its NUL, so the 16-byte buffer
      never truncates, and the eight digits read back as the CRC-32C. */
  lemma HashedNameParts(useHashPrefix: bool, objectName: string, crc32c: string -> bv32)
    ensures var r := HashedName(useHashPrefix, objectName, crc32c);
      (!useHashPrefix ==> r == objectName)
      && (useHashPrefix ==>
            |r| == 9 + |objectName| && r[8] == '_' && r[9..] == objectName
            && AllHexDigits(r[..8]) && HexValue(r[..8]) == crc32c(objectName) as nat)
  {
    if useHashPrefix {
      var hash := crc32c(objectName) as nat;
      Hex8OfWord(hash);
      Hex8RoundTrip(hash);
      var r := Hex8(hash) + "_" + objectName;
      assert r[..8] == Hex8(hash);
      assert r[9..] == objectName;
    }
  }

  // ---------------------------------------------------------------------
  // work_item, parse_message and format_work_item.

  datatype WorkItem = WorkItem(bucket: string, prefix: string, objectCount: int, useHashPrefix: bool)

  /** The attributes of a Pub/Sub message. */
  type Attributes = map<string, string>

  /** What parse_message throws: std::out_of_range from attributes.at, or
      the error std::stoll raises on object_count. */
  datatype ParseError = MissingAttribute(name: string) | BadObjectCount(error: ConversionError)

  predicate HasAttributes(attributes: Attributes)
  {
    "bucket" in attributes && "prefix" in attributes && "object_count" in attributes && "use_hash_prefix" in attributes
  }

  /** parse_message: the fields are read left to right, so a missing
      attribute is reported in the order bucket, prefix, object_count, and
      object_count is converted before use_hash_prefix is looked up. */
  function ParseMessage(attributes: Attributes): (r: Result<WorkItem, ParseError>)
    ensures r.Ok? <==> HasAttributes(attributes) && StringToInteger(attributes["object_count"], INT64_MIN, INT64_MAX).Ok?
    ensures r.Ok? ==> r.value.bucket == attributes["bucket"] && r.value.prefix == attributes["prefix"]
    ensures r.Ok? ==> ParseLeadingInteger(attributes["object_count"]) == Some(r.value.objectCount)
    ensures r.Ok? ==> INT64_MIN <= r.value.objectCount <= INT64_MAX
    ensures r.Ok? ==> (r.value.useHashPrefix <==> attributes["use_hash_prefix"] == "true")
    ensures r.Err? && r.error.MissingAttribute? ==> r.error.name !in attributes
    ensures "bucket" !in attributes ==> r == Err(MissingAttribute("bucket"))
  {
    if "bucket" !in attributes then Err(MissingAttribute("bucket"))
    else if "prefix" !in attributes then Err(MissingAttribute("prefix"))
    else if "object_count" !in attributes then Err(MissingAttribute("object_count"))
    else match StringToInteger(attributes["object_count"], INT64_MIN, INT64_MAX)
      case Err(e) => Err(BadObjectCount(e))
      case Ok(count) =>
        if "use_hash_prefix" !in attributes then Err(MissingAttribute("use_hash_prefix"))
        else Ok(WorkItem(attributes["bucket"], attributes["prefix"], count, attributes["use_hash_prefix"] == "true"))
  }

  /** std::boolalpha and the "true"/"false" attribute values. */
  function BoolText(b: bool): string
  {
    if b then "true" else "false"
  }

  /** format_work_item as written: use_hash_prefix is encoded from
      object_count rather than from use_hash_prefix. */
  function FormatWorkItemAsWritten(wi: WorkItem): (m: Attributes)
    ensures HasAttributes(m) && |m.Keys| == 4
  {
    map["bucket" := wi.bucket, "prefix" := wi.prefix, "object_count" := IntToDecimal(wi.objectCount),
        "use_hash_prefix" := BoolText(wi.objectCount != 0)]
  }

  /** As written, a work item comes back with use_hash_prefix replaced by
      "object_count is not zero". */
  lemma AsWrittenRoundTrip(wi: WorkItem)
    requires INT64_MIN <= wi.objectCount <= INT64_MAX
    ensures ParseMessage(FormatWorkItemAsWritten(wi)) == Ok(wi.(useHashPrefix := wi.objectCount != 0))
  {
    IntDecimalRoundTrip(wi.objectCount);
  }

  /** A work item of 1000 objects scheduled without hash prefixes is read
      back by the worker with hash prefixes on. */
  lemma HashFlagLost()
    ensures ParseMessage(FormatWorkItemAsWritten(WorkItem("bucket", "prefix", 1000, false))) == Ok(WorkItem("bucket", "prefix", 1000, true))
  {
    AsWrittenRoundTrip(WorkItem("bucket", "prefix", 1000, false));
  }

  /** format_work_item encoding the item's own use_hash_prefix. */
  function FormatWorkItem(wi: WorkItem): (m: Attributes)
    ensures HasAttributes(m) && |m.Keys| == 4
  {
    map["bucket" := wi.bucket, "prefix" := wi.prefix, "object_count" := IntToDecimal(wi.objectCount),
        "use_hash_prefix" := BoolText(wi.useHashPrefix)]
  }

  /** Every work item whose count fits a std::int64_t survives the trip
      through the message attributes. */
  lemma WorkItemRoundTrip(wi: WorkItem)
    requires INT64_MIN <= wi.objectCount <= INT64_MAX
    ensures ParseMessage(FormatWorkItem(wi)) == Ok(wi)
  {
    IntDecimalRoundTrip(wi.objectCount);
  }

  // ---------------------------------------------------------------------
  // schedule.

  /** The options schedule reads. project always has a value (its default is
      $GOOGLE_CLOUD_PROJECT or empty); topic and bucket may be absent. */
  datatype ScheduleOptions = ScheduleOptions(
    project: string, topic: Option<string>, bucket: Option<string>,
    objectCount: int, useHashPrefix: bool, taskSize: int)

  /** The checks at the top of schedule, in order; None when all pass. */
  function CheckScheduleOptions(o: ScheduleOptions): (r: Option<string>)
    ensures r.None? <==> o.project != "" && o.topic.Some? && o.bucket.Some?
    ensures o.project == "" ==> r == Some("the `schedule` action requires --project")
    ensures o.project != "" && o.topic.None? ==> r == Some("the `schedule` action requires --topic")
  {
    if o.project == "" then Some("the `schedule` action requires --project")
    else if o.topic.None? then Some("the `schedule` action requires --topic")
    else if o.bucket.None? then Some("the `schedule` action requires --bucket")
    else None
  }

  /** make_prefix: "name-", a 32-character random fragment made from the
      given draws, "-offset-" and the offset in at least eight zero-padded
      hex digits. */
  function MakePrefix(draws: seq<int>, offset: nat, asWritten: bool): string
    requires FragmentDraws(draws, asWritten)
  {
    "name-" + Fragment(draws, asWritten) + "-offset-" + Hex8(offset)
  }

  /** A prefix splits back into its fragment and its offset. The corrected
      fragment is alphanumeric; as written, a character is not alphanumeric
      exactly where its draw was 36, and is then NUL. */
  lemma PrefixParts(draws: seq<int>, offset: nat, asWritten: bool)
    requires FragmentDraws(draws, asWritten)
    ensures var p := MakePrefix(draws, offset, asWritten);
      |p| >= 53 && p[..5] == "name-" && p[37..45] == "-offset-"
      && (forall i :: 5 <= i < 37 ==> (IsAlphanumeric(p[i]) <==> !asWritten || draws[i - 5] != 36))
      && (forall i :: 5 <= i < 37 && !IsAlphanumeric(p[i]) ==> p[i] == '\0')
      && AllHexDigits(p[45..]) && HexValue(p[45..]) == offset
  {
    Hex8RoundTrip(offset);
    var fragment := Fragment(draws, asWritten);
    if asWritten {
      forall i | 0 <= i < 32
        ensures !IsAlphanumeric(fragment[i]) <==> draws[i] == 36
        ensures !IsAlphanumeric(fragment[i]) ==> fragment[i] == '\0'
      {
        AsWrittenLeavesAlphabet(draws, i);
      }
    }
    var a := "name-" + fragment;
    var b := a + "-offset-";
    var p := b + Hex8(offset);
    assert p == MakePrefix(draws, offset, asWritten);
    assert p[..|b|] == b && b[..|a|] == a;
    assert p[..5] == a[..5] == "name-";
    assert forall i :: 5 <= i < 37 ==> p[i] == fragment[i - 5];
    assert p[37..45] == b[|a|..] == "-offset-";
    assert p[45..] == Hex8(offset);
  }

  /** Prefixes made at different offsets differ, whatever the random
      fragments are, as written or corrected. */
  lemma PrefixesDistinct(draws: seq<int>, others: seq<int>, offset: nat, other: nat, asWritten: bool)
    requires FragmentDraws(draws, asWritten) && FragmentDraws(others, asWritten) && offset != other
    ensures MakePrefix(draws, offset, asWritten) != MakePrefix(others, other, asWritten)
  {
    PrefixParts(draws, offset, asWritten);
    PrefixParts(others, other, asWritten);
  }

  function Min(a: int, b: int): int { if a < b then a else b }

  /** As written, --task-size is never checked. With objects to schedule and
      a task size of zero or less, the offset after any number of rounds is
      still below object_count, so the loop never ends, and every item it
      publishes holds task_size objects, zero or fewer. */
  lemma {:induction false} NonPositiveTaskSizeNeverEnds(objectCount: int, taskSize: int, rounds: nat)
    requires objectCount > 0 && taskSize <= 0
    ensures rounds * taskSize < objectCount
    ensures Min(taskSize, objectCount - rounds * taskSize) == taskSize <= 0
  {
    if rounds > 0 {
      NonPositiveTaskSizeNeverEnds(objectCount, taskSize, rounds - 1);
      assert rounds * taskSize == (rounds - 1) * taskSize + taskSize;
    }
  }

  /** The number of work items the offset loop produces. */
  function ItemCount(objectCount: int, taskSize: int): (n: nat)
    requires objectCount <= 0 || taskSize > 0
    ensures objectCount > 0 ==> n >= 1
  {
    if objectCount <= 0 then 0
    else
      assert (objectCount + taskSize - 1) / taskSize >= taskSize / taskSize;
      Download.CeilDiv(objectCount, taskSize)
  }

  function Counts(items: seq<WorkItem>): (cs: seq<int>)
    ensures |cs| == |items| && forall k :: 0 <= k < |items| ==> cs[k] == items[k].objectCount
  {
    seq(|items|, k requires 0 <= k < |items| => items[k].objectCount)
  }

  /** Item k covers min(task_size, object_count - offset) objects, where
      its offset is k * task_size. */
  predicate CountsAt(items: seq<WorkItem>, objectCount: int, taskSize: int)
    requires taskSize > 0
  {
    forall k :: 0 <= k < |items| ==> items[k].objectCount == Min(taskSize, objectCount - Offset(k, taskSize))
  }

  /** Item k is for the bucket, carries the hash flag, and has the prefix
      made from the k-th fragment and its offset. */
  predicate PrefixesAt(items: seq<WorkItem>, bucket: string, useHashPrefix: bool, taskSize: int, draws: seq<seq<int>>,
                      asWritten: bool)
    requires taskSize > 0 && forall k :: 0 <= k < |draws| ==> FragmentDraws(draws[k], asWritten)
  {
    |items| <= |draws|
    && forall k :: 0 <= k < |items| ==>
      items[k].bucket == bucket && items[k].useHashPrefix == useHashPrefix
      && items[k].prefix == MakePrefix(draws[k], Offset(k, taskSize), asWritten)
  }

  lemma CountsAtSnoc(items: seq<WorkItem>, item: WorkItem, objectCount: int, taskSize: int)
    requires taskSize > 0 && CountsAt(items, objectCount, taskSize)
    requires item.objectCount == Min(taskSize, objectCount - Offset(|items|, taskSize))
    ensures CountsAt(items + [item], objectCount, taskSize)
  {
  }

  lemma PrefixesAtSnoc(items: seq<WorkItem>, item: WorkItem, bucket: string, useHashPrefix: bool, taskSize: int,
                       draws: seq<seq<int>>, asWritten: bool)
    requires taskSize > 0 && forall k :: 0 <= k < |draws| ==> FragmentDraws(draws[k], asWritten)
    requires PrefixesAt(items, bucket, useHashPrefix, taskSize, draws, asWritten) && |items| < |draws|
    requires item.bucket == bucket && item.useHashPrefix == useHashPrefix
    requires item.prefix == MakePrefix(draws[|items|], Offset(|items|, taskSize), asWritten)
    ensures PrefixesAt(items + [item], bucket, useHashPrefix, taskSize, draws, asWritten)
  {
    var s := items + [item];
    forall k | 0 <= k < |s|
      ensures s[k].bucket == bucket && s[k].useHashPrefix == useHashPrefix
      ensures s[k].prefix == MakePrefix(draws[k], Offset(k, taskSize), asWritten)
    {
      if k < |items| {
        assert s[k] == items[k];
      }
    }
  }

  /** The offset loop of schedule: items at offsets 0, task_size, ..., each
      for min(task_size, object_count - offset) objects, so every count is at
      most task_size, all but the last are exactly task_size, and the counts
      add up to object_count. draws[k] are the draws behind the k-th prefix,
      made as written or corrected. */
  method WorkItems(bucket: string, objectCount: int, useHashPrefix: bool, taskSize: int, draws: seq<seq<int>>,
                   asWritten: bool)
    returns (items: seq<WorkItem>)
    requires objectCount <= 0 || taskSize > 0
    requires |draws| >= ItemCount(objectCount, taskSize)
    requires forall k :: 0 <= k < |draws| ==> FragmentDraws(draws[k], asWritten)
    ensures |items| == ItemCount(objectCount, taskSize)
    ensures objectCount > 0 ==>
      CountsAt(items, objectCount, taskSize) && PrefixesAt(items, bucket, useHashPrefix, taskSize, draws, asWritten)
    ensures Download.Sum(Counts(items)) == if objectCount <= 0 then 0 else objectCount
    ensures objectCount > 0 ==> Download.MinimumSlices(objectCount, taskSize, Counts(items))
  {
    items := [];
    if objectCount <= 0 {
      return;
    }
    var offset := 0;
    while offset < objectCount
      invariant offset == Offset(|items|, taskSize)
      invariant CountsAt(items, objectCount, taskSize) && PrefixesAt(items, bucket, useHashPrefix, taskSize, draws, asWritten)
      invariant |items| > 0 ==> Offset(|items| - 1, taskSize) < objectCount
      invariant |items| == 0 ==> offset == 0
      decreases objectCount - offset
    {
      BelowCeil(|items|, objectCount, taskSize);
      var prefix := MakePrefix(draws[|items|], offset, asWritten);
      var item := WorkItem(bucket, prefix, Min(taskSize, objectCount - offset), useHashPrefix);
      CountsAtSnoc(items, item, objectCount, taskSize);
      PrefixesAtSnoc(items, item, bucket, useHashPrefix, taskSize, draws, asWritten);
      OffsetSucc(|items|, taskSize);
      items := items + [item];
      offset := offset + taskSize;
    }
    PartitionCounts(objectCount, taskSize, items);
  }

  /** The offset of the k-th work item, k * task_size, as the loop adds
      it up. */
  function Offset(k: nat, taskSize: int): (offset: nat)
    requires taskSize > 0
  {
    if k == 0 then 0 else Offset(k - 1, taskSize) + taskSize
  }

  lemma {:induction false} OffsetIsProduct(k: nat, taskSize: int)
    requires taskSize > 0
    ensures Offset(k, taskSize) == k * taskSize
  {
    if k > 0 {
      OffsetIsProduct(k - 1, taskSize);
      assert k * taskSize == (k - 1) * taskSize + taskSize;
    }
  }

  lemma OffsetSucc(k: nat, taskSize: int)
    requires taskSize > 0
    ensures Offset(k + 1, taskSize) == Offset(k, taskSize) + taskSize
  {
  }

  lemma {:induction false} OffsetMonotone(k: nat, l: nat, taskSize: int)
    requires taskSize > 0 && k <= l
    ensures Offset(k, taskSize) <= Offset(l, taskSize)
    decreases l
  {
    if k < l {
      OffsetMonotone(k, l - 1, taskSize);
    }
  }

  /** Every item before the last covers task_size objects. */
  lemma FullItems(n: int, t: int, items: seq<WorkItem>)
    requires t > 0 && |items| >= 1 && CountsAt(items, n, t)
    requires Offset(|items| - 1, t) < n
    ensures forall k :: 0 <= k < |items| - 1 ==> items[k].objectCount == t
  {
    forall k | 0 <= k < |items| - 1
      ensures items[k].objectCount == t
    {
      OffsetSucc(k, t);
      OffsetMonotone(k + 1, |items| - 1, t);
    }
  }

  /** The counts min(task_size, object_count - offset) of the items whose
      offsets lie below object_count, when the next offset does not: they
      partition object_count into full items and one last, shorter or full. */
  lemma PartitionCounts(n: int, t: int, items: seq<WorkItem>)
    requires t > 0 && |items| >= 1 && CountsAt(items, n, t)
    requires Offset(|items| - 1, t) < n <= Offset(|items|, t)
    ensures |items| == ItemCount(n, t)
    ensures Download.Sum(Counts(items)) == n && Download.MinimumSlices(n, t, Counts(items))
  {
    var c := Counts(items);
    var m := |c|;
    var full := seq(m - 1, _ => t);
    var last := n - Offset(m - 1, t);
    CountsShape(n, t, items);
    Download.EqualSlicesSum(t, m - 1);
    OffsetIsProduct(m - 1, t);
    assert Download.Sum(full) == Offset(m - 1, t);
    Download.SumSnoc(full, last);
    assert Download.Sum(c) == n;
    Download.MinimumSlicesCount(n, t, c);
  }

  /** The counts are full task sizes followed by the rest of the objects. */
  lemma CountsShape(n: int, t: int, items: seq<WorkItem>)
    requires t > 0 && |items| >= 1 && CountsAt(items, n, t)
    requires Offset(|items| - 1, t) < n <= Offset(|items|, t)
    ensures Counts(items) == seq(|items| - 1, _ => t) + [n - Offset(|items| - 1, t)]
    ensures 0 < n - Offset(|items| - 1, t) <= t
  {
    OffsetSucc(|items| - 1, t);
    FullItems(n, t, items);
  }

  /** An item that starts below the object count is one the count needs. */
  lemma BelowCeil(a: nat, n: int, t: int)
    requires t > 0 && Offset(a, t) < n
    ensures a < Download.CeilDiv(n, t)
  {
    OffsetIsProduct(a, t);
    var x := n + t - 1;
    var q, r := x / t, x % t;
    assert x == q * t + r && 0 <= r < t;
    if q <= a {
      assert false;
    }
  }

  // ---------------------------------------------------------------------
  // The error tally at the end of schedule.

  /** google::cloud::StatusCode::kOk. */
  const StatusOk := 0

  function Occurrences(codes: seq<int>, c: int): nat
  {
    if codes == [] then 0 else Occurrences(codes[..|codes| - 1], c) + (if codes[|codes| - 1] == c then 1 else 0)
  }

  /** The number of publish results that are not OK. */
  function ErrorTotal(codes: seq<int>): nat
  {
    if codes == [] then 0 else ErrorTotal(codes[..|codes| - 1]) + (if codes[|codes| - 1] == StatusOk then 0 else 1)
  }

  /** error_count after the first loop: OK skipped, ++error_count[code]
      otherwise, with operator[] starting a new code at zero. */
  function Tally(codes: seq<int>): map<int, int>
  {
    if codes == [] then map[]
    else
      var m := Tally(codes[..|codes| - 1]);
      var c := codes[|codes| - 1];
      if c == StatusOk then m else m[c := (if c in m then m[c] else 0) + 1]
  }

  /** The tally holds exactly the codes other than OK that occur, each with
      the number of times it occurs. */
  lemma {:induction false} TallyCounts(codes: seq<int>, c: int)
    ensures c in Tally(codes) <==> c != StatusOk && Occurrences(codes, c) > 0
    ensures c in Tally(codes) ==> Tally(codes)[c] == Occurrences(codes, c)
  {
    if codes != [] {
      TallyCounts(codes[..|codes| - 1], c);
    }
  }

  /** The sum of the counts stored under the given keys. */
  ghost function SumOver(m: map<int, int>, keys: set<int>): int
    requires keys <= m.Keys
    decreases |keys|
  {
    if keys == {} then 0 else var c := Pick(keys); m[c] + SumOver(m, keys - {c})
  }

  ghost function Pick(keys: set<int>): (c: int)
    requires keys != {}
    ensures c in keys
  {
    HasMember(keys);
    var c :| c in keys; c
  }

  lemma HasMember(keys: set<int>)
    requires keys != {}
    ensures exists c :: c in keys
  {
    if forall c :: c !in keys {
      assert false;
    }
  }

  /** The sum does not depend on the order the keys are taken in. */
  lemma {:induction false} SumOverRemove(m: map<int, int>, keys: set<int>, c: int)
    requires keys <= m.Keys && c in keys
    ensures SumOver(m, keys) == m[c] + SumOver(m, keys - {c})
    decreases |keys|
  {
    var d := Pick(keys);
    if d != c {
      SumOverRemove(m, keys - {d}, c);
      SumOverRemove(m, keys - {c}, d);
      assert keys - {d} - {c} == keys - {c} - {d};
    }
  }

  /** Only the keys matter: maps that agree on them have the same sum. */
  lemma {:induction false} SumOverAgree(m: map<int, int>, n: map<int, int>, keys: set<int>)
    requires keys <= m.Keys && keys <= n.Keys
    requires forall c :: c in keys ==> m[c] == n[c]
    ensures SumOver(m, keys) == SumOver(n, keys)
    decreases |keys|
  {
    if keys != {} {
      var c := Pick(keys);
      SumOverRemove(m, keys, c);
      SumOverRemove(n, keys, c);
      SumOverAgree(m, n, keys - {c});
    }
  }

  /** The counts in the tally add up to the number of failed publishes. */
  lemma {:induction false} TallyTotal(codes: seq<int>)
    ensures SumOver(Tally(codes), Tally(codes).Keys) == ErrorTotal(codes)
  {
    if codes != [] {
      var init := codes[..|codes| - 1];
      var m := Tally(init);
      var c := codes[|codes| - 1];
      TallyTotal(init);
      if c != StatusOk {
        var t := Tally(codes);
        assert t == m[c := (if c in m then m[c] else 0) + 1];
        SumOverRemove(t, t.Keys, c);
        SumOverAgree(t, m, t.Keys - {c});
        if c in m {
          SumOverRemove(m, m.Keys, c);
          assert t.Keys - {c} == m.Keys - {c};
        } else {
          assert t.Keys - {c} == m.Keys;
        }
      }
    }
  }

  lemma {:induction false} NoErrors(codes: seq<int>)
    ensures ErrorTotal(codes) == 0 <==> forall i :: 0 <= i < |codes| ==> codes[i] == StatusOk
  {
    if codes != [] {
      var init := codes[..|codes| - 1];
      NoErrors(init);
      assert forall i :: 0 <= i < |init| ==> init[i] == codes[i];
    }
  }

  lemma {:induction false} EmptyTally(codes: seq<int>)
    ensures Tally(codes) == map[] <==> ErrorTotal(codes) == 0
  {
    if codes != [] {
      EmptyTally(codes[..|codes| - 1]);
      var c := codes[|codes| - 1];
      if c != StatusOk {
        assert c in Tally(codes);
      }
    }
  }

  /** The tally loops of schedule: count the publish results that are not
      OK per code, then, when any were counted, fail with their total. */
  method TallyErrors(codes: seq<int>) returns (errorCount: map<int, int>, r: Result<(), string>)
    ensures errorCount == Tally(codes)
    ensures r.Ok? <==> forall i :: 0 <= i < |codes| ==> codes[i] == StatusOk
    ensures r.Err? ==> r.error == "Errors publishing messages, count=" + IntToDecimal(ErrorTotal(codes))
  {
    errorCount := map[];
    var i := 0;
    while i < |codes|
      invariant 0 <= i <= |codes| && errorCount == Tally(codes[..i])
    {
      assert codes[..i + 1][..i] == codes[..i];
      var code := codes[i];
      if code != StatusOk {
        errorCount := errorCount[code := (if code in errorCount then errorCount[code] else 0) + 1];
      }
      i := i + 1;
    }
    assert codes[..i] == codes;
    EmptyTally(codes);
    NoErrors(codes);
    if errorCount == map[] {
      return errorCount, Ok(());
    }
    var total := 0;
    var remaining := errorCount.Keys;
    while remaining != {}
      invariant remaining <= errorCount.Keys
      invariant total + SumOver(errorCount, remaining) == SumOver(errorCount, errorCount.Keys)
      decreases |remaining|
    {
      HasMember(remaining);
      var code :| code in remaining;
      SumOverRemove(errorCount, remaining, code);
      total := total + errorCount[code];
      remaining := remaining - {code};
    }
    TallyTotal(codes);
    r := Err("Errors publishing messages, count=" + IntToDecimal(total));
  }

  /** format_work_item of a work item, as written or corrected. */
  function Format(wi: WorkItem, asWritten: bool): Attributes
  {
    if asWritten then FormatWorkItemAsWritten(wi) else FormatWorkItem(wi)
  }

  /** The messages the offset loop publishes, one per work item. */
  function Messages(items: seq<WorkItem>, asWritten: bool): (ms: seq<Attributes>)
    ensures |ms| == |items| && forall k :: 0 <= k < |items| ==> ms[k] == Format(items[k], asWritten)
  {
    seq(|items|, k requires 0 <= k < |items| => Format(items[k], asWritten))
  }

  /** Every published work item reads back, since its count lies between 1
      and task_size: intact when corrected, and as written with the hash
      flag on, whatever the schedule asked for. */
  lemma MessagesRoundTrip(items: seq<WorkItem>, objectCount: int, taskSize: int, asWritten: bool)
    requires 0 < taskSize <= INT64_MAX && Download.MinimumSlices(objectCount, taskSize, Counts(items))
    ensures forall k :: 0 <= k < |items| ==>
      ParseMessage(Messages(items, asWritten)[k]) == Ok(if asWritten then items[k].(useHashPrefix := true) else items[k])
  {
    forall k | 0 <= k < |items|
      ensures ParseMessage(Messages(items, asWritten)[k]) == Ok(if asWritten then items[k].(useHashPrefix := true) else items[k])
    {
      assert Counts(items)[k] == items[k].objectCount;
      if asWritten {
        AsWrittenRoundTrip(items[k]);
      } else {
        WorkItemRoundTrip(items[k]);
      }
    }
  }

  /** The checks schedule makes before the loop: those of the source, and
      when corrected also a positive --task-size. */
  function ScheduleFailure(o: ScheduleOptions, asWritten: bool): (r: Option<string>)
    ensures asWritten ==> r == CheckScheduleOptions(o)
    ensures !asWritten ==> (r.None? <==> CheckScheduleOptions(o).None? && o.taskSize > 0)
    ensures CheckScheduleOptions(o).Some? ==> r == CheckScheduleOptions(o)
  {
    if CheckScheduleOptions(o).Some? then CheckScheduleOptions(o)
    else if !asWritten && o.taskSize <= 0 then Some("the `schedule` action requires a positive --task-size")
    else None
  }

  /** schedule: the option checks, one published message per work item
      (publishCodes[k] is the status the k-th publish completes with), then
      the error tally; asWritten selects the source's prefixes, messages and
      checks over the corrected ones. The counts are std::int64_t values.
      As written, a task size of zero or less with objects to schedule never
      ends the loop (NonPositiveTaskSizeNeverEnds), so that case is the
      corrected check's alone. */
  method Schedule(o: ScheduleOptions, draws: seq<seq<int>>, publishCodes: seq<int>, asWritten: bool)
    returns (r: Result<(), string>, items: seq<WorkItem>, messages: seq<Attributes>)
    requires INT64_MIN <= o.objectCount <= INT64_MAX && INT64_MIN <= o.taskSize <= INT64_MAX
    requires asWritten ==> o.objectCount <= 0 || o.taskSize > 0
    requires ScheduleFailure(o, asWritten).None? ==>
      |draws| >= ItemCount(o.objectCount, o.taskSize) && |publishCodes| == ItemCount(o.objectCount, o.taskSize)
    requires forall k :: 0 <= k < |draws| ==> FragmentDraws(draws[k], asWritten)
    ensures ScheduleFailure(o, asWritten).Some? ==> r == Err(ScheduleFailure(o, asWritten).value) && messages == []
    ensures ScheduleFailure(o, asWritten).None? ==>
      |items| == ItemCount(o.objectCount, o.taskSize)
      && (o.objectCount > 0 ==>
            CountsAt(items, o.objectCount, o.taskSize)
            && PrefixesAt(items, o.bucket.value, o.useHashPrefix, o.taskSize, draws, asWritten))
      && Download.Sum(Counts(items)) == (if o.objectCount <= 0 then 0 else o.objectCount)
      && (o.objectCount > 0 ==> Download.MinimumSlices(o.objectCount, o.taskSize, Counts(items)))
    ensures |messages| == |items| && forall k :: 0 <= k < |items| ==> messages[k] == Format(items[k], asWritten)
    ensures forall k :: 0 <= k < |messages| ==>
      ParseMessage(messages[k]) == Ok(if asWritten then items[k].(useHashPrefix := true) else items[k])
    ensures r.Ok? <==> ScheduleFailure(o, asWritten).None? && forall i :: 0 <= i < |publishCodes| ==> publishCodes[i] == StatusOk
    ensures ScheduleFailure(o, asWritten).None? && r.Err? ==>
      r.error == "Errors publishing messages, count=" + IntToDecimal(ErrorTotal(publishCodes))
  {
    var failure := ScheduleFailure(o, asWritten);
    if failure.Some? {
      return Err(failure.value), [], [];
    }
    items := WorkItems(o.bucket.value, o.objectCount, o.useHashPrefix, o.taskSize, draws, asWritten);
    messages := Messages(items, asWritten);
    if o.objectCount > 0 {
      MessagesRoundTrip(items, o.objectCount, o.taskSize, asWritten);
    }
    var _, tally := TallyErrors(publishCodes);
    r := tally;
  }

  // ---------------------------------------------------------------------
  // create_contents and process_one_item.

  /** create_contents: the object's text records its prefix, the hash flag
      and its index. */
  function Contents(wi: WorkItem, index: int): string
  {
    "Prefix: " + wi.prefix + "\nUse Hash Prefix: " + BoolText(wi.useHashPrefix) + "\nObject Index: " + IntToDecimal(index) + "\n"
  }

  /** The name of the index-th object of a work item. */
  function ObjectName(wi: WorkItem, index: int, crc32c: string -> bv32): string
  {
    HashedName(wi.useHashPrefix, wi.prefix + "/object-" + IntToDecimal(index), crc32c)
  }

  /** The objects of one work item all have different names, hashed or not. */
  lemma ObjectNamesDistinct(wi: WorkItem, i: int, j: int, crc32c: string -> bv32)
    requires i != j
    ensures ObjectName(wi, i, crc32c) != ObjectName(wi, j, crc32c)
  {
    var n, m := wi.prefix + "/object-" + IntToDecimal(i), wi.prefix + "/object-" + IntToDecimal(j);
    HashedNameParts(wi.useHashPrefix, n, crc32c);
    HashedNameParts(wi.useHashPrefix, m, crc32c);
    if ObjectName(wi, i, crc32c) == ObjectName(wi, j, crc32c) {
      assert n == m;
      assert n[|wi.prefix| + 8..] == IntToDecimal(i);
      assert m[|wi.prefix| + 8..] == IntToDecimal(j);
      IntDecimalRoundTrip(i);
      IntDecimalRoundTrip(j);
    }
  }

  datatype Insert = Insert(bucket: string, name: string, contents: string)

  datatype WorkerError = BadMessage(error: ParseError) | InsertFailed(name: string)

  /** The inserts of the first |inserts| objects of a work item. */
  predicate InsertsOf(inserts: seq<Insert>, wi: WorkItem, crc32c: string -> bv32)
  {
    forall k :: 0 <= k < |inserts| ==> inserts[k] == Insert(wi.bucket, ObjectName(wi, k, crc32c), Contents(wi, k))
  }

  /** The first n inserts succeed. */
  predicate Succeeded(insertSucceeds: seq<bool>, n: int)
    requires n <= |insertSucceeds|
  {
    forall k :: 0 <= k < n ==> insertSucceeds[k]
  }

  /** The loop of process_one_item: insert objects 0, 1, ...,
      object_count - 1; the first insert that fails (insertSucceeds[i] is
      false) throws. The loop stops on `i != object_count`, so it terminates
      only for a count that is not negative. */
  method InsertObjects(wi: WorkItem, crc32c: string -> bv32, insertSucceeds: seq<bool>)
    returns (r: Result<(), WorkerError>, inserts: seq<Insert>)
    requires 0 <= wi.objectCount <= |insertSucceeds|
    ensures |inserts| <= wi.objectCount && InsertsOf(inserts, wi, crc32c)
    ensures r.Ok? ==> |inserts| == wi.objectCount && Succeeded(insertSucceeds, |inserts|)
    ensures r.Err? ==>
      r.error.InsertFailed? && |inserts| > 0 && !insertSucceeds[|inserts| - 1]
      && r.error.name == inserts[|inserts| - 1].name && Succeeded(insertSucceeds, |inserts| - 1)
  {
    inserts := [];
    r := Ok(());
    var i := 0;
    while i != wi.objectCount && r.Ok?
      invariant 0 <= i <= wi.objectCount && |inserts| == i
      invariant InsertsOf(inserts, wi, crc32c)
      invariant r.Ok? ==> Succeeded(insertSucceeds, i)
      invariant r.Err? ==>
        r.error.InsertFailed? && i > 0 && !insertSucceeds[i - 1]
        && r.error.name == inserts[i - 1].name && Succeeded(insertSucceeds, i - 1)
      decreases wi.objectCount - i
    {
      var insert := Insert(wi.bucket, ObjectName(wi, i, crc32c), Contents(wi, i));
      InsertsOfSnoc(inserts, insert, wi, crc32c);
      inserts := inserts + [insert];
      if !insertSucceeds[i] {
        r := Err(InsertFailed(insert.name));
      }
      i := i + 1;
    }
  }

  lemma InsertsOfSnoc(inserts: seq<Insert>, insert: Insert, wi: WorkItem, crc32c: string -> bv32)
    requires InsertsOf(inserts, wi, crc32c)
    requires insert == Insert(wi.bucket, ObjectName(wi, |inserts|, crc32c), Contents(wi, |inserts|))
    ensures InsertsOf(inserts + [insert], wi, crc32c)
  {
  }

  /** process_one_item: parse the message, then create its objects. */
  method ProcessOneItem(m: Attributes, crc32c: string -> bv32, insertSucceeds: seq<bool>)
    returns (r: Result<(), WorkerError>, inserts: seq<Insert>)
    requires ParseMessage(m).Ok? ==> 0 <= ParseMessage(m).value.objectCount <= |insertSucceeds|
    ensures ParseMessage(m).Err? ==> r == Err(BadMessage(ParseMessage(m).error)) && inserts == []
    ensures ParseMessage(m).Ok? ==> |inserts| <= ParseMessage(m).value.objectCount && InsertsOf(inserts, ParseMessage(m).value, crc32c)
    ensures r.Ok? ==> ParseMessage(m).Ok? && |inserts| == ParseMessage(m).value.objectCount && Succeeded(insertSucceeds, |inserts|)
    ensures r.Err? && r.error.InsertFailed? ==>
      |inserts| > 0 && !insertSucceeds[|inserts| - 1] && r.error.name == inserts[|inserts| - 1].name
      && Succeeded(insertSucceeds, |inserts| - 1)
  {
    var parsed := ParseMessage(m);
    if parsed.Err? {
      return Err(BadMessage(parsed.error)), [];
    }
    r, inserts := InsertObjects(parsed.value, crc32c, insertSucceeds);
  }
}
