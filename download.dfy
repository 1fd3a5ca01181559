/** download (gcs-fast-transfers): an object is split into slices, each
    slice is downloaded by its own task into its range of the destination
    file, and the command line is validated first. The object's size, the
    stream a task reads and the results of pwrite are inputs. */
module Download {
  import opened Wrappers
  import opened Text

  function Sum(s: seq<int>): int
  {
    if s == [] then 0 else Sum(s[..|s| - 1]) + s[|s| - 1]
  }

  lemma SumSnoc(s: seq<int>, x: int)
    ensures Sum(s + [x]) == Sum(s) + x
  {
    assert (s + [x])[..|s|] == s;
  }

  /** The number of slices of size m needed for n bytes. */
  function CeilDiv(n: int, m: int): int
    requires m > 0
  {
    (n + m - 1) / m
  }

  // ---------------------------------------------------------------------
  // compute_slices.

  /** The slices compute_slices produces, both branches. */
  predicate ThreadSlices(objectSize: int, threadCount: int, result: seq<int>)
    requires threadCount > 0
  {
    var t := objectSize / threadCount;
    |result| == threadCount
    && (forall k :: 0 <= k < threadCount - 1 ==> result[k] == t)
    && result[threadCount - 1] == t + objectSize % threadCount
  }

  predicate MinimumSlices(objectSize: int, minimumSliceSize: int, result: seq<int>)
    requires minimumSliceSize > 0
  {
    |result| == CeilDiv(objectSize, minimumSliceSize)
    && (forall k :: 0 <= k < |result| - 1 ==> result[k] == minimumSliceSize)
    && (|result| > 0 ==> 0 < result[|result| - 1] <= minimumSliceSize)
  }

  /** compute_slices: thread_count equal slices with the remainder added to
      the last one when each is at least the minimum size, else slices of
      the minimum size with a shorter last one. Either way they add up to
      the object size. */
  method ComputeSlices(objectSize: int, minimumSliceSize: int, threadCount: int) returns (result: seq<int>)
    requires objectSize >= 0 && threadCount != 0 && minimumSliceSize != 0
    requires threadCount > 0 || minimumSliceSize > 0
    ensures Sum(result) == objectSize
    ensures TruncQuot(objectSize, threadCount) >= minimumSliceSize ==>
      threadCount > 0 && ThreadSlices(objectSize, threadCount, result)
    ensures TruncQuot(objectSize, threadCount) < minimumSliceSize ==>
      minimumSliceSize > 0 && MinimumSlices(objectSize, minimumSliceSize, result)
  {
    var threadSlice := TruncQuot(objectSize, threadCount);
    SliceBranches(objectSize, minimumSliceSize, threadCount);
    if threadSlice >= minimumSliceSize {
      result := seq(threadCount, _ => threadSlice);
      result := result[threadCount - 1 := result[threadCount - 1] + objectSize % threadCount];
      ThreadSlicesSum(objectSize, threadCount, result);
      return;
    }
    result := MinimumSizeSlices(objectSize, minimumSliceSize);
  }

  /** compute_slices' loop: slices of the minimum size taken off the object
      until nothing is left, the last one holding the rest. */
  method MinimumSizeSlices(objectSize: int, minimumSliceSize: int) returns (result: seq<int>)
    requires objectSize >= 0 && minimumSliceSize > 0
    ensures Sum(result) == objectSize && MinimumSlices(objectSize, minimumSliceSize, result)
  {
    result := [];
    var size := objectSize;
    while size > 0
      invariant Sum(result) + (if size > 0 then size else 0) == objectSize
      invariant forall k :: 0 <= k < |result| - 1 ==> result[k] == minimumSliceSize
      invariant size > 0 && |result| > 0 ==> result[|result| - 1] == minimumSliceSize
      invariant |result| > 0 ==> 0 < result[|result| - 1] <= minimumSliceSize
      invariant |result| == 0 ==> size == objectSize
      decreases size
    {
      var slice := if minimumSliceSize <= size then minimumSliceSize else size;
      SumSnoc(result, slice);
      result := result + [slice];
      size := size - minimumSliceSize;
    }
    if |result| > 0 {
      MinimumSlicesCount(objectSize, minimumSliceSize, result);
    }
  }

  /** The equal-slices branch is only taken with a positive thread count,
      and the other one only with a positive minimum. */
  lemma SliceBranches(objectSize: int, minimumSliceSize: int, threadCount: int)
    requires objectSize >= 0 && threadCount != 0 && minimumSliceSize != 0
    requires threadCount > 0 || minimumSliceSize > 0
    ensures TruncQuot(objectSize, threadCount) >= minimumSliceSize ==>
      threadCount > 0 && TruncQuot(objectSize, threadCount) == objectSize / threadCount
    ensures TruncQuot(objectSize, threadCount) < minimumSliceSize ==> minimumSliceSize > 0
  {
    var q := TruncQuot(objectSize, threadCount);
    if threadCount > 0 {
      assert q >= 0;
    } else {
      assert q <= 0;
    }
  }

  lemma ThreadSlicesSum(objectSize: int, n: int, result: seq<int>)
    requires objectSize >= 0 && n > 0
    requires result == seq(n, _ => objectSize / n)[n - 1 := objectSize / n + objectSize % n]
    ensures Sum(result) == objectSize && ThreadSlices(objectSize, n, result)
  {
    var t := objectSize / n;
    assert result == seq(n - 1, _ => t) + [t + objectSize % n];
    SumSnoc(seq(n - 1, _ => t), t + objectSize % n);
    EqualSlicesSum(t, n - 1);
    assert (n - 1) * t + t == n * t;
  }

  lemma {:induction false} EqualSlicesSum(t: int, n: nat)
    ensures Sum(seq(n, _ => t)) == n * t
  {
    if n > 0 {
      assert seq(n, _ => t)[..n - 1] == seq(n - 1, _ => t);
      EqualSlicesSum(t, n - 1);
      assert (n - 1) * t + t == n * t;
    }
  }

  lemma MinimumSlicesCount(objectSize: int, m: int, result: seq<int>)
    requires m > 0 && |result| > 0 && Sum(result) == objectSize
    requires forall k :: 0 <= k < |result| - 1 ==> result[k] == m
    requires 0 < result[|result| - 1] <= m
    ensures |result| == CeilDiv(objectSize, m)
  {
    var n := |result|;
    assert result == seq(n - 1, _ => m) + [result[n - 1]];
    SumSnoc(seq(n - 1, _ => m), result[n - 1]);
    EqualSlicesSum(m, n - 1);
    SliceCount(objectSize, m, n, result[n - 1]);
  }

  lemma SliceCount(n: int, m: int, count: int, last: int)
    requires m > 0 && count >= 1 && 0 < last <= m && n == (count - 1) * m + last
    ensures CeilDiv(n, m) == count
  {
    var x := n + m - 1;
    assert x == count * m + (last - 1);
    DivUnique(x, m, count, last - 1);
  }

  lemma DivUnique(x: int, b: int, q: int, r: int)
    requires b > 0 && 0 <= r < b && x == q * b + r
    ensures x / b == q
  {
    var q' := x / b;
    var r' := x % b;
    assert x == q' * b + r';
    if q' < q {
      MulAtLeast(q - q', b);
    } else if q' > q {
      MulAtLeast(q' - q, b);
    }
  }

  lemma {:induction false} MulAtLeast(d: int, b: int)
    requires d >= 1 && b > 0
    ensures d * b >= b
    decreases d
  {
    if d > 1 {
      MulAtLeast(d - 1, b);
      assert d * b == (d - 1) * b + b;
    }
  }

  // ---------------------------------------------------------------------
  // The offsets main hands to the tasks.

  /** The running offset of main's transform: each slice starts where the
      previous one ended. */
  method Offsets(slices: seq<int>) returns (offsets: seq<int>)
    ensures |offsets| == |slices|
    ensures forall k :: 0 <= k < |slices| ==> offsets[k] == Sum(slices[..k])
  {
    offsets := [];
    var offset := 0;
    var i := 0;
    while i < |slices|
      invariant 0 <= i <= |slices| && |offsets| == i
      invariant offset == Sum(slices[..i])
      invariant forall k :: 0 <= k < i ==> offsets[k] == Sum(slices[..k])
    {
      offsets := offsets + [offset];
      assert slices[..i + 1] == slices[..i] + [slices[i]];
      SumSnoc(slices[..i], slices[i]);
      offset := offset + slices[i];
      i := i + 1;
    }
  }

  predicate NonNegative(s: seq<int>) { forall k :: 0 <= k < |s| ==> s[k] >= 0 }

  lemma {:induction false} SumPrefixMonotone(s: seq<int>, i: nat, j: nat)
    requires NonNegative(s) && i <= j <= |s|
    ensures Sum(s[..i]) <= Sum(s[..j])
    decreases j - i
  {
    if i < j {
      SumPrefixMonotone(s, i, j - 1);
      assert s[..j] == s[..j - 1] + [s[j - 1]];
      SumSnoc(s[..j - 1], s[j - 1]);
    }
  }

  /** Byte b lies in the k-th range: [Sum(s[..k]), Sum(s[..k+1])). */
  predicate InRange(s: seq<int>, k: int, b: int)
  {
    0 <= k < |s| && Sum(s[..k]) <= b < Sum(s[..k + 1])
  }

  /** The ranges of non-negative slices tile [0, Sum(s)): every byte of the
      object falls in one of them... */
  lemma RangesCover(s: seq<int>, b: int)
    requires NonNegative(s) && 0 <= b < Sum(s)
    ensures exists k :: InRange(s, k, b)
  {
    assert s[..|s|] == s;
    var k := FindRange(s, b, |s|);
    assert InRange(s, k, b);
  }

  /** ... and in only one. */
  lemma RangesDisjoint(s: seq<int>, b: int, k: int, l: int)
    requires NonNegative(s) && InRange(s, k, b) && InRange(s, l, b)
    ensures k == l
  {
    if k < l {
      SumPrefixMonotone(s, k + 1, l);
    } else if l < k {
      SumPrefixMonotone(s, l + 1, k);
    }
  }

  lemma {:induction false} FindRange(s: seq<int>, b: int, n: nat) returns (k: nat)
    requires NonNegative(s) && n <= |s| && 0 <= b < Sum(s[..n])
    ensures k < n && Sum(s[..k]) <= b < Sum(s[..k + 1])
  {
    assert s[..0] == [];
    if b >= Sum(s[..n - 1]) {
      k := n - 1;
    } else {
      k := FindRange(s, b, n - 1);
    }
  }

  // ---------------------------------------------------------------------
  // task: one slice downloaded into its range of the file.

  /** The outcome of one istream::read of the download stream: the bytes it
      delivered and the state bits it left. */
  datatype ReadResult = ReadResult(gcount: nat, bad: bool, eof: bool)

  /** A pwrite call: the bytes written and the file offset. */
  datatype Write = Write(offset: int, length: nat)

  /** The runtime_error check_system_call throws. */
  datatype SystemCallError = SystemCallError(name: string, result: int)

  /** Where the do-while loop stops: the first read that is bad or at eof. */
  predicate Ends(r: ReadResult) { r.bad || r.eof }

  /** The reads one task makes: every one but the last leaves the stream
      good and not at its end; the last one is bad or at eof. */
  predicate ReadSequence(results: seq<ReadResult>)
  {
    |results| > 0 && Ends(results[|results| - 1]) && forall k :: 0 <= k < |results| - 1 ==> !Ends(results[k])
  }

  /** How many reads the loop accepts: all of them, except a last one that
      is bad. */
  function AcceptedCount(results: seq<ReadResult>): (m: nat)
    requires ReadSequence(results)
    ensures m <= |results|
  {
    if results[|results| - 1].bad then |results| - 1 else |results|
  }

  /** The bytes delivered by the first i reads. */
  function Counted(results: seq<ReadResult>, i: nat): nat
    requires i <= |results|
  {
    if i == 0 then 0 else Counted(results, i - 1) + results[i - 1].gcount
  }

  /** The pwrite calls for the first i reads, one after the other from
      offset. */
  function WritesOf(offset: int, results: seq<ReadResult>, i: nat): (w: seq<Write>)
    requires i <= |results|
    ensures |w| == i
  {
    if i == 0 then [] else WritesOf(offset, results, i - 1) + [Write(offset + Counted(results, i - 1), results[i - 1].gcount)]
  }

  /** Each write starts where the previous one ended: the k-th at offset plus
      the bytes read before it, with the k-th read's bytes. */
  lemma {:induction false} WritesContiguous(offset: int, results: seq<ReadResult>, i: nat, k: nat)
    requires k < i <= |results|
    ensures WritesOf(offset, results, i)[k] == Write(offset + Counted(results, k), results[k].gcount)
  {
    if k < i - 1 {
      WritesContiguous(offset, results, i - 1, k);
    }
  }

  function Report(offset: int, length: int, count: int): string
  {
    "Download range [" + IntToDecimal(offset) + ", " + IntToDecimal(offset + length) + "] got "
      + IntToDecimal(count) + "/" + IntToDecimal(length) + " bytes"
  }

  /** After i accepted reads: the writes issued and the bytes counted. */
  predicate Wrote(offset: int, results: seq<ReadResult>, i: nat, writes: seq<Write>, count: int)
  {
    i <= |results| && writes == WritesOf(offset, results, i) && count == Counted(results, i)
  }

  lemma WroteStep(offset: int, results: seq<ReadResult>, i: nat, writes: seq<Write>, count: int)
    requires Wrote(offset, results, i, writes, count) && i < |results|
    ensures Wrote(offset, results, i + 1, writes + [Write(offset + count, results[i].gcount)], count + results[i].gcount)
  {
  }

  /** Only the last read ends the loop. */
  lemma LastRead(results: seq<ReadResult>, i: nat)
    requires ReadSequence(results) && i < |results| && Ends(results[i])
    ensures i == |results| - 1
    ensures AcceptedCount(results) == if results[i].bad then i else i + 1
  {
  }

  /** task: read the range in chunks, write each chunk at the current write
      offset and advance it by the chunk's size, until the stream is bad or
      at its end; a failed pwrite throws. pwrite[k] is what the k-th pwrite
      call returns. The name the error carries is the source's "pwrite()"
      when asWritten, and the bare "pwrite" otherwise. */
  method Task(offset: int, length: int, results: seq<ReadResult>, pwrite: seq<int>, asWritten: bool)
    returns (r: Result<string, SystemCallError>, writes: seq<Write>)
    requires ReadSequence(results) && |pwrite| == |results|
    ensures |writes| <= AcceptedCount(results)
    ensures writes == WritesOf(offset, results, |writes|)
    ensures r.Ok? ==> |writes| == AcceptedCount(results) && forall k :: 0 <= k < |writes| ==> pwrite[k] >= 0
    ensures r.Ok? ==> r.value == Report(offset, length, Counted(results, AcceptedCount(results)))
    ensures r.Err? ==> |writes| > 0 && pwrite[|writes| - 1] < 0 && r.error == SystemCallError(PwriteName(asWritten), pwrite[|writes| - 1])
    ensures r.Err? ==> forall k :: 0 <= k < |writes| - 1 ==> pwrite[k] >= 0
  {
    var count := 0;
    var writeOffset := offset;
    writes := [];
    var i := 0;
    var more := true;
    while more
      invariant more ==> i < |results|
      invariant !more ==> i == AcceptedCount(results)
      invariant Wrote(offset, results, i, writes, count) && writeOffset == offset + count
      invariant forall k :: 0 <= k < i ==> pwrite[k] >= 0
      decreases |results| - i, more
    {
      var rd := results[i];
      if rd.bad {
        LastRead(results, i);
        more := false;
      } else {
        WroteStep(offset, results, i, writes, count);
        count := count + rd.gcount;
        writes := writes + [Write(writeOffset, rd.gcount)];
        var w := pwrite[i];
        if w < 0 {
          if rd.eof {
            LastRead(results, i);
          }
          return Err(SystemCallError(PwriteName(asWritten), w)), writes;
        }
        writeOffset := writeOffset + rd.gcount;
        if rd.eof {
          LastRead(results, i);
        }
        i := i + 1;
        more := !rd.eof;
      }
    }
    r := Ok(Report(offset, length, count));
  }

  // ---------------------------------------------------------------------
  // check_system_call and the final comparison.

  /** The what() of the runtime_error check_system_call throws for a
      negative result; errno and its strerror text are inputs. The format
      appends "()" to the name it is given. */
  function SystemCallMessage(name: string, result: int, errno: int, errorText: string): string
  {
    "Error in " + name + "() - "
      + ("return value=" + IntToDecimal(result) + ", error=[" + IntToDecimal(errno) + "] " + errorText)
  }

  /** The name the source passes for pwrite already carries its
      parentheses. */
  const PwriteNameAsWritten: string := "pwrite()"

  /** The name task gives check_system_call for pwrite. */
  function PwriteName(asWritten: bool): string
  {
    if asWritten then PwriteNameAsWritten else "pwrite"
  }

  /** As written, the message names "pwrite()()". */
  lemma DoubledParentheses(result: int, errno: int, errorText: string)
    ensures var m := SystemCallMessage(PwriteNameAsWritten, result, errno, errorText);
      |m| >= 22 && m[..22] == "Error in pwrite()() - "
  {
    MessagePrefix(PwriteNameAsWritten, result, errno, errorText);
  }

  /** With the bare name that task reports, the call is named once:
      "pwrite()". */
  lemma CallNamedOnce(result: int, errno: int, errorText: string)
    ensures var m := SystemCallMessage("pwrite", result, errno, errorText);
      |m| >= 20 && m[..20] == "Error in pwrite() - "
  {
    MessagePrefix("pwrite", result, errno, errorText);
  }

  lemma MessagePrefix(name: string, result: int, errno: int, errorText: string)
    ensures var m := SystemCallMessage(name, result, errno, errorText);
      var p := "Error in " + name + "() - ";
      |m| >= |p| && m[..|p|] == p
  {
    var p := "Error in " + name + "() - ";
    var t := "return value=" + IntToDecimal(result) + ", error=[" + IntToDecimal(errno) + "] " + errorText;
    assert (p + t)[..|p|] == p;
  }

  /** The comparison after the download: the size of the file, then its
      CRC32C (base64 of the big-endian checksum), against the object's
      metadata. */
  function VerifyDownload(expectedSize: int, size: int, expectedCrc: string, crc: string): (r: (int, string))
  {
    if size != expectedSize then
      (1, "Downloaded file size mismatch, expected=" + IntToDecimal(expectedSize) + ", got=" + IntToDecimal(size))
    else if crc != expectedCrc then
      (1, "Download file CRC32C mismatch, expected=" + expectedCrc + ", got=" + crc)
    else (0, "File size and CRC32C match expected values")
  }

  /** The program succeeds exactly when both the size and the checksum
      match, and otherwise exits with 1. */
  lemma VerifyDownloadSucceeds(expectedSize: int, size: int, expectedCrc: string, crc: string)
    ensures VerifyDownload(expectedSize, size, expectedCrc, crc).0 == 0 <==> size == expectedSize && crc == expectedCrc
    ensures VerifyDownload(expectedSize, size, expectedCrc, crc).0 in {0, 1}
  {
  }

  // ---------------------------------------------------------------------
  // parse_command_line.

  /** The command line as boost::program_options leaves it; the defaults of
      --thread-count (from the hardware concurrency) and
      --minimum-slice-size (64 MiB) are already filled in. */
  datatype CommandLine = CommandLine(
    argc: int, help: bool, bucket: Option<string>, objectName: Option<string>, destination: Option<string>,
    threadCount: int, minimumSliceSize: int)

  datatype Options = Options(bucket: string, objectName: string, destination: string, threadCount: int, minimumSliceSize: int)

  /** usage(): the exit status and the error message, empty for a plain
      help request. */
  datatype Usage = Usage(exitStatus: int, message: string)

  const DefaultMinimumSliceSize: int := 64 * 1024 * 1024

  /** boost's notify() reports the first missing required option in name
      order. */
  function MissingRequired(cl: CommandLine): Option<string>
  {
    if cl.bucket.None? then Some("bucket")
    else if cl.destination.None? then Some("destination")
    else if cl.objectName.None? then Some("object")
    else None
  }

  /** The positional arguments in the order they are checked for emptiness. */
  function FirstEmpty(bucket: string, objectName: string, destination: string): Option<string>
  {
    if bucket == "" then Some("bucket")
    else if objectName == "" then Some("object")
    else if destination == "" then Some("destination")
    else None
  }

  function ParseCommandLine(cl: CommandLine): (r: Result<Options, Usage>)
    ensures r.Err? ==> r.error.exitStatus == 0 || r.error.exitStatus == 1
  {
    match MissingRequired(cl)
    case Some(name) =>
      if cl.help || cl.argc == 1 then Err(Usage(0, ""))
      else Err(Usage(1, "the option '--" + name + "' is required but missing"))
    case None =>
      if cl.help then Err(Usage(0, ""))
      else match FirstEmpty(cl.bucket.value, cl.objectName.value, cl.destination.value)
      case Some(name) => Err(Usage(1, "the " + name + " argument cannot be empty"))
      case None =>
        if cl.threadCount == 0 then Err(Usage(1, "the --thread-count option cannot be zero"))
        else if cl.minimumSliceSize == 0 then Err(Usage(1, "the --minimum-slice-size option cannot be zero"))
        else Ok(Options(cl.bucket.value, cl.objectName.value, cl.destination.value, cl.threadCount, cl.minimumSliceSize))
  }

  /** The command line is accepted exactly when the three positional
      arguments are present and non-empty, help is not asked for, and
      neither the thread count nor the minimum slice size is zero; the
      options are then the values given. */
  lemma ParseCommandLineAccepts(cl: CommandLine)
    ensures ParseCommandLine(cl).Ok? <==>
      cl.bucket.Some? && cl.objectName.Some? && cl.destination.Some? && !cl.help
      && cl.bucket.value != "" && cl.objectName.value != "" && cl.destination.value != ""
      && cl.threadCount != 0 && cl.minimumSliceSize != 0
    ensures ParseCommandLine(cl).Ok? ==>
      ParseCommandLine(cl).value == Options(cl.bucket.value, cl.objectName.value, cl.destination.value, cl.threadCount, cl.minimumSliceSize)
  {
  }

  /** A help request, or a bare program name, prints the usage and exits
      with success whatever else is missing. */
  lemma HelpExitsSuccessfully(cl: CommandLine)
    requires cl.help || (cl.argc == 1 && MissingRequired(cl).Some?)
    ensures ParseCommandLine(cl) == Err(Usage(0, ""))
  {
  }
}
