/** gcs_parallel_download: the object is cut into slices of one size, one
    task per slice, after the command line has been checked. The object's
    size reaches the program as an unsigned 64-bit number, so the slicing
    arithmetic mixes signed and unsigned values the way C++ converts them. */
module ParallelDownload {
  import opened Wrappers
  import opened Text
  import Download
  import SizeFormat

  const UINT64_MODULUS: int := 0x1_0000_0000_0000_0000
  const UINT32_MODULUS: int := 0x1_0000_0000

  /** A signed value converted to std::uint64_t. */
  function ToUint64(x: int): (u: nat)
    ensures u < UINT64_MODULUS
    ensures 0 <= x < UINT64_MODULUS ==> u == x
  {
    x % UINT64_MODULUS
  }

  /** An unsigned 64-bit value converted to std::int64_t (modular since
      C++20). */
  function ToInt64(u: nat): (i: int)
    requires u < UINT64_MODULUS
    ensures u <= INT64_MAX ==> i == u
  {
    if u <= INT64_MAX then u else u - UINT64_MODULUS
  }

  /** static_cast<int> of an unsigned 64-bit value (modular since C++20). */
  function ToInt32(u: nat): (i: int)
    ensures INT32_MIN <= i <= INT32_MAX
    ensures u <= INT32_MAX ==> i == u
  {
    var m := u % UINT32_MODULUS;
    if m <= INT32_MAX then m else m - UINT32_MODULUS
  }

  datatype Slicing = Slicing(sliceSize: int, threadCount: int)

  /** The quotient of a non-negative number by a positive one is at most
      the number, and zero exactly when the number is smaller. */
  lemma DivFacts(a: int, b: int)
    requires a >= 0 && b > 0
    ensures 0 <= a / b <= a
    ensures a / b == 0 <==> a < b
  {
    var q := a / b;
    assert a == q * b + a % b;
    if q >= 1 {
      Download.MulAtLeast(q, b);
      assert q * b >= q;
    }
  }

  /** The lambda that picks the slice size and the thread count. The size
      is divided by the thread count converted to unsigned, and compared
      with the minimum converted to unsigned. */
  function SliceAndThreads(size: nat, desired: int, minimum: int): Slicing
    requires size < UINT64_MODULUS && desired != 0 && INT32_MIN <= desired <= INT32_MAX
  {
    var threadSlice := size / ToUint64(desired);
    if threadSlice >= ToUint64(minimum) then Slicing(ToInt64(threadSlice), desired)
    else
      var threads := size / ToUint64(minimum);
      if threads == 0 then Slicing(ToInt64(size), 1)
      else Slicing(minimum, ToInt32(threads))
  }

  /** For positive options and an object below 2^63 bytes: equal slices
      when each is at least the minimum, one slice for an object smaller
      than the minimum, and slices of the minimum size otherwise, their
      count truncated to int (it is exact up to 2^31 - 1). */
  lemma SliceAndThreadsPositive(size: nat, desired: int, minimum: int)
    requires size <= INT64_MAX && 0 < desired <= INT32_MAX && 0 < minimum <= INT64_MAX
    ensures var s := SliceAndThreads(size, desired, minimum);
      if size / desired >= minimum then s == Slicing(size / desired, desired)
      else if size < minimum then s == Slicing(size, 1)
      else (s == Slicing(minimum, ToInt32(size / minimum))
            && (size / minimum <= INT32_MAX ==> s.threadCount == size / minimum >= 1))
  {
    assert ToUint64(desired) == desired && ToUint64(minimum) == minimum;
    var q := size / desired;
    DivFacts(size, desired);
    if q >= minimum {
      assert SliceAndThreads(size, desired, minimum) == Slicing(q, desired);
    } else {
      DivFacts(size, minimum);
    }
  }

  /** A range of the object handed to one task. */
  datatype Range = Range(offset: int, length: int)

  function Lengths(ranges: seq<Range>): (ls: seq<int>)
    ensures |ls| == |ranges| && forall k :: 0 <= k < |ranges| ==> ls[k] == ranges[k].length
  {
    seq(|ranges|, k requires 0 <= k < |ranges| => ranges[k].length)
  }

  /** The loop in main: from offset 0, a range of min(slice, size - offset)
      bytes, then the offset advances by the slice size. The ranges tile
      the object: they start where the previous one ended, all but the last
      have the slice size, and there are ceil(size / slice) of them. */
  method SliceRanges(size: int, sliceSize: int) returns (ranges: seq<Range>)
    requires 0 <= size && (size == 0 || sliceSize > 0)
    ensures size == 0 ==> ranges == []
    ensures Download.Sum(Lengths(ranges)) == size
    ensures sliceSize > 0 ==> Download.MinimumSlices(size, sliceSize, Lengths(ranges))
    ensures Tiled(ranges)
  {
    ranges := [];
    if size == 0 {
      return;
    }
    ghost var lengths: seq<int> := [];
    var offset := 0;
    while offset < size
      invariant lengths == Lengths(ranges) && Tiled(ranges)
      invariant 0 <= offset && Download.Sum(lengths) == (if offset < size then offset else size)
      invariant SlicesSoFar(lengths, sliceSize, offset < size)
      invariant |lengths| == 0 ==> offset == 0
      decreases size - offset
    {
      var current := if sliceSize < size - offset then sliceSize else size - offset;
      AppendRange(ranges, offset, current);
      SlicesStep(lengths, sliceSize, current, offset + sliceSize < size);
      ranges := ranges + [Range(offset, current)];
      lengths := lengths + [current];
      offset := offset + sliceSize;
    }
    Download.MinimumSlicesCount(size, sliceSize, lengths);
  }

  /** The range lengths so far: all of the slice size but the last, which is
      positive and at most the slice size, and the slice size itself while
      the loop goes on. */
  predicate SlicesSoFar(lengths: seq<int>, sliceSize: int, more: bool)
  {
    (forall k :: 0 <= k < |lengths| - 1 ==> lengths[k] == sliceSize)
    && (|lengths| > 0 ==> 0 < lengths[|lengths| - 1] <= sliceSize)
    && (more && |lengths| > 0 ==> lengths[|lengths| - 1] == sliceSize)
  }

  lemma SlicesStep(lengths: seq<int>, sliceSize: int, current: int, more: bool)
    requires SlicesSoFar(lengths, sliceSize, true) && 0 < current <= sliceSize
    requires more ==> current == sliceSize
    ensures SlicesSoFar(lengths + [current], sliceSize, more)
  {
  }

  /** Each range starts where the ranges before it end. */
  predicate Tiled(ranges: seq<Range>)
  {
    forall k :: 0 <= k < |ranges| ==> ranges[k].offset == Download.Sum(Lengths(ranges)[..k])
  }

  lemma AppendRange(ranges: seq<Range>, offset: int, length: int)
    requires Tiled(ranges) && Download.Sum(Lengths(ranges)) == offset
    ensures Lengths(ranges + [Range(offset, length)]) == Lengths(ranges) + [length]
    ensures Download.Sum(Lengths(ranges + [Range(offset, length)])) == offset + length
    ensures Tiled(ranges + [Range(offset, length)])
  {
    var r := ranges + [Range(offset, length)];
    assert Lengths(r) == Lengths(ranges) + [length];
    Download.SumSnoc(Lengths(ranges), length);
    forall k | 0 <= k < |r|
      ensures r[k].offset == Download.Sum(Lengths(r)[..k])
    {
      if k < |ranges| {
        assert Lengths(r)[..k] == Lengths(ranges)[..k];
      } else {
        assert Lengths(r)[..k] == Lengths(ranges);
      }
    }
  }

  /** The announcement announces thread_count slices, yet the loop launches
      one task per range: for 10 bytes and 3 threads the slice size is 3,
      the program announces 3 slices and starts 4 tasks. */
  lemma MoreTasksThanAnnounced()
    ensures SliceAndThreads(10, 3, 1) == Slicing(3, 3)
    ensures Download.CeilDiv(10, 3) == 4
  {
    assert ToUint64(3) == 3 && ToUint64(1) == 1;
  }

  // ---------------------------------------------------------------------
  // The checks in main and parse_command_line.

  /** How the program ends before downloading: the exit status and what it
      prints (an exception's what() after main's prefix). */
  datatype Exit = Exit(status: int, message: string)

  function Thrown(what: string): Exit
  {
    Exit(1, "Standard C++ exception thrown: " + what)
  }

  /** The checks as written. A missing required option makes notify()
      throw; help, or a bare program name, prints the usage and exits with
      success instead. The emptiness loop skips every option that is in the
      map, and the required ones always are, so it rejects nothing. A zero
      thread count is rejected; the minimum slice size is not checked. */
  function CheckOptionsAsWritten(cl: Download.CommandLine): Result<Download.Options, Exit>
  {
    match Download.MissingRequired(cl)
    case Some(name) =>
      if cl.help || cl.argc == 1 then Err(Exit(0, ""))
      else Err(Thrown("the option '--" + name + "' is required but missing"))
    case None =>
      if cl.help then Err(Exit(0, ""))
      else if cl.threadCount == 0 then Err(Thrown("the --thread-count option cannot be zero"))
      else Ok(Download.Options(cl.bucket.value, cl.objectName.value, cl.destination.value, cl.threadCount, cl.minimumSliceSize))
  }

  /** The checks as intended, as the sibling download program makes them:
      an empty bucket, object or destination is rejected, and so is a zero
      minimum slice size. */
  function CheckOptions(cl: Download.CommandLine): Result<Download.Options, Exit>
  {
    match Download.MissingRequired(cl)
    case Some(name) =>
      if cl.help || cl.argc == 1 then Err(Exit(0, ""))
      else Err(Thrown("the option '--" + name + "' is required but missing"))
    case None =>
      if cl.help then Err(Exit(0, ""))
      else match Download.FirstEmpty(cl.bucket.value, cl.objectName.value, cl.destination.value)
      case Some(name) => Err(Thrown("the --" + name + " option cannot be empty"))
      case None =>
        if cl.threadCount == 0 then Err(Thrown("the --thread-count option cannot be zero"))
        else if cl.minimumSliceSize == 0 then Err(Thrown("the --minimum-slice-size option cannot be zero"))
        else Ok(Download.Options(cl.bucket.value, cl.objectName.value, cl.destination.value, cl.threadCount, cl.minimumSliceSize))
  }

  /** The options are accepted exactly when the three positional arguments
      are present and non-empty, help is not asked for, and neither number
      is zero. */
  lemma CheckOptionsAccepts(cl: Download.CommandLine)
    ensures CheckOptions(cl).Ok? <==>
      cl.bucket.Some? && cl.objectName.Some? && cl.destination.Some? && !cl.help
      && cl.bucket.value != "" && cl.objectName.value != "" && cl.destination.value != ""
      && cl.threadCount != 0 && cl.minimumSliceSize != 0
    ensures CheckOptions(cl).Err? ==> CheckOptions(cl).error.status in {0, 1}
  {
  }

  /** As written, an empty bucket passes the checks. */
  lemma EmptyBucketAccepted()
    ensures var cl := Download.CommandLine(4, false, Some(""), Some("o"), Some("d"), 2, 1);
      CheckOptionsAsWritten(cl).Ok? && CheckOptions(cl) == Err(Thrown("the --bucket option cannot be empty"))
  {
    assert Download.FirstEmpty("", "o", "d") == Some("bucket");
    assert "the --" + "bucket" + " option cannot be empty" == "the --bucket option cannot be empty";
  }

  /** As written, a zero minimum slice size passes the checks, and for a
      one-byte object and two threads the slice size is 0: the loop's
      offset stays at 0, below the size, however many times it runs. */
  lemma ZeroMinimumStalls(iterations: nat)
    ensures var cl := Download.CommandLine(4, false, Some("b"), Some("o"), Some("d"), 2, 0);
      CheckOptionsAsWritten(cl).Ok? && CheckOptions(cl).Err?
    ensures SliceAndThreads(1, 2, 0) == Slicing(0, 2)
    ensures iterations * SliceAndThreads(1, 2, 0).sliceSize < 1
  {
    assert ToUint64(2) == 2 && ToUint64(0) == 0;
  }

  /** With a non-zero thread count and a non-zero minimum, whatever their
      signs, the slice size is positive for every non-empty object below
      2^63 bytes, so the loop advances. */
  lemma CheckedSliceAdvances(size: nat, desired: int, minimum: int)
    requires 0 < size <= INT64_MAX && desired != 0 && INT32_MIN <= desired <= INT32_MAX
    requires minimum != 0 && INT64_MIN <= minimum <= INT64_MAX
    ensures SliceAndThreads(size, desired, minimum).sliceSize > 0
  {
    var d := ToUint64(desired);
    var m := ToUint64(minimum);
    assert d > 0 && m > 0;
    DivFacts(size, d);
    DivFacts(size, m);
    if minimum < 0 {
      assert m > INT64_MAX;
    } else {
      assert m == minimum;
    }
  }

  /** What main prints before the download starts. */
  function Announcement(size: int, s: Slicing): string
  {
    "This object size is approximately " + SizeFormat.FormatSize(size) + ". It will be downloaded in "
      + IntToDecimal(s.threadCount) + " slices, each approximately " + SizeFormat.FormatSize(s.sliceSize) + " in size."
  }

  datatype Plan = Plan(slicing: Slicing, ranges: seq<Range>, announcement: string)

  /** The checks main makes, as written or as intended. */
  function Checked(cl: Download.CommandLine, asWritten: bool): Result<Download.Options, Exit>
  {
    if asWritten then CheckOptionsAsWritten(cl) else CheckOptions(cl)
  }

  /** main up to the launch of the tasks: the options are checked, as
      written or as intended, the slicing chosen and the ranges computed.
      As written, a zero minimum slice size can give a slice size of 0 for
      a non-empty object, and the range loop then never ends
      (ZeroMinimumStalls); that case is the intended checks' alone. */
  method PlanDownload(cl: Download.CommandLine, objectSize: int, asWritten: bool) returns (r: Result<Plan, Exit>)
    requires 0 <= objectSize <= INT64_MAX
    requires INT32_MIN <= cl.threadCount <= INT32_MAX && INT64_MIN <= cl.minimumSliceSize <= INT64_MAX
    requires asWritten && objectSize > 0 && cl.threadCount != 0 ==>
      SliceAndThreads(objectSize, cl.threadCount, cl.minimumSliceSize).sliceSize > 0
    ensures r.Err? <==> Checked(cl, asWritten).Err?
    ensures r.Err? ==> r.error == Checked(cl, asWritten).error
    ensures r.Ok? ==> cl.threadCount != 0 && (!asWritten ==> cl.minimumSliceSize != 0)
    ensures r.Ok? ==> r.value.slicing == SliceAndThreads(objectSize, cl.threadCount, cl.minimumSliceSize)
    ensures r.Ok? ==> r.value.announcement == Announcement(objectSize, r.value.slicing)
    ensures r.Ok? ==> Download.Sum(Lengths(r.value.ranges)) == objectSize && Tiled(r.value.ranges)
    ensures r.Ok? && objectSize > 0 ==> r.value.slicing.sliceSize > 0
    ensures r.Ok? && objectSize > 0 ==>
      Download.MinimumSlices(objectSize, r.value.slicing.sliceSize, Lengths(r.value.ranges))
  {
    var checked := Checked(cl, asWritten);
    if checked.Err? {
      return Err(checked.error);
    }
    CheckOptionsAccepts(cl);
    var slicing := SliceAndThreads(objectSize, cl.threadCount, cl.minimumSliceSize);
    if objectSize > 0 && !asWritten {
      CheckedSliceAdvances(objectSize, cl.threadCount, cl.minimumSliceSize);
    }
    var ranges := SliceRanges(objectSize, slicing.sliceSize);
    r := Ok(Plan(slicing, ranges, Announcement(objectSize, slicing)));
  }
}
