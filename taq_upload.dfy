/** upload_taq_batch: quotes read from a TAQ file are grouped by ticker into
    one Bigtable row each and uploaded with MutateRows in batches of 1024
    entries; entries the server reports with a transient error are resent
    with capped exponential backoff. The server is an oracle: for each
    MutateRows call it returns the stream of per-entry statuses, which the
    model receives flattened into one sequence. */
module TaqUpload {
  import opened Wrappers
  import opened Text
  import opened Streams
  import opened TaqLine

  // gRPC status codes.
  const OK: int := 0
  const DEADLINE_EXCEEDED: int := 4
  const ABORTED: int := 10
  const UNAVAILABLE: int := 14

  const MaxRetries: nat := 100
  const InitialBackoffMs: nat := 10
  const MaximumBackoffMs: nat := 300_000
  const BatchSize: nat := 1024
  const MaxLinesToUpload: nat := 1_000_000

  /** should_retry: the transient codes. */
  predicate ShouldRetry(code: int)
  {
    code == ABORTED || code == UNAVAILABLE || code == DEADLINE_EXCEEDED
  }

  /** One element of the parallel repeated fields of the Quotes message. */
  datatype Sample = Sample(timestampNs: int, bidPx: string, bidQty: int, offerPx: string, offerQty: int)

  /** The Quotes message: a ticker and its quotes, in file order. */
  datatype Quotes = Quotes(ticker: string, samples: seq<Sample>)

  datatype SetCell = SetCell(familyName: string, columnQualifier: string, value: Quotes, timestampMicros: int)

  /** A MutateRowsRequest entry; the default (empty) entry is what an entry
      swapped out of a request leaves behind. */
  datatype Entry = Entry(rowKey: string, mutations: seq<SetCell>)

  const EmptyEntry: Entry := Entry("", [])

  /** One entry of a MutateRowsResponse: the index of the request entry it
      reports on and its status code. */
  datatype ResponseEntry = ResponseEntry(index: int, code: int)

  function SampleOf(q: Quote): Sample
  {
    Sample(q.timestampNs, q.bidPx, q.bidQty, q.offerPx, q.offerQty)
  }

  function RowKey(yyyymmdd: string, ticker: string): string
  {
    yyyymmdd + "/" + ticker
  }

  /** The entry append_to_request adds: one SetCell in family "taq", column
      "quotes", timestamp 0, holding the serialized quotes. */
  function MakeEntry(yyyymmdd: string, quotes: Quotes): (e: Entry)
    ensures e.rowKey == RowKey(yyyymmdd, quotes.ticker)
    ensures e.mutations == [SetCell("taq", "quotes", quotes, 0)]
  {
    Entry(RowKey(yyyymmdd, quotes.ticker), [SetCell("taq", "quotes", quotes, 0)])
  }

  /** With a date that holds no '/', the row key determines the date and the
      ticker: different tickers are written to different rows. */
  lemma RowKeyInjective(d1: string, t1: string, d2: string, t2: string)
    requires NoDelimiter(d1, '/') && NoDelimiter(d2, '/')
    requires RowKey(d1, t1) == RowKey(d2, t2)
    ensures d1 == d2 && t1 == t2
  {
    var k := RowKey(d1, t1);
    SlashAfterDate(d1, t1);
    SlashAfterDate(d2, t2);
    assert d1 == k[..|d1|] == d2;
    assert t1 == k[|d1| + 1..] == t2;
  }

  lemma SlashAfterDate(d: string, t: string)
    requires NoDelimiter(d, '/')
    ensures FindChar(RowKey(d, t), '/') == |d|
  {
    var k := RowKey(d, t);
    assert k[|d|] == '/';
    assert forall i :: 0 <= i < |d| ==> k[i] == d[i];
  }

  // ---------------------------------------------------------------------
  // One MutateRows attempt.

  /** The state of one attempt after reading some response entries: the
      request (whose retried entries have been swapped out), the next
      request's entries, the permanent errors seen and, when a retryable
      entry named an index outside the request, that index (indexing a
      repeated field out of range is undefined behaviour in the program; the
      model stops there). */
  datatype Attempt = Attempt(request: seq<Entry>, retry: seq<Entry>, permanent: seq<ResponseEntry>, badIndex: Option<int>)

  /** The classification loop of mutate_with_retries over the response
      entries of one attempt: OK entries are skipped, entries with a
      non-retryable code are recorded, and retryable ones are moved into the
      next request with Swap. */
  function SortResponses(request: seq<Entry>, resp: seq<ResponseEntry>): (a: Attempt)
    ensures |a.request| == |request|
    decreases |resp|
  {
    if resp == [] then Attempt(request, [], [], None)
    else
      var a := SortResponses(request, resp[..|resp| - 1]);
      var e := resp[|resp| - 1];
      if a.badIndex.Some? || e.code == OK then a
      else if !ShouldRetry(e.code) then a.(permanent := a.permanent + [e])
      else if 0 <= e.index < |a.request| then
        a.(request := a.request[e.index := EmptyEntry], retry := a.retry + [a.request[e.index]])
      else a.(badIndex := Some(e.index))
  }

  /** The indices of the retryable entries of a response, in stream order. */
  function RetryIndices(resp: seq<ResponseEntry>): seq<int>
    decreases |resp|
  {
    if resp == [] then []
    else
      var e := resp[|resp| - 1];
      RetryIndices(resp[..|resp| - 1]) + (if e.code != OK && ShouldRetry(e.code) then [e.index] else [])
  }

  /** The entries of a response with a non-retryable error, in stream order. */
  function PermanentErrors(resp: seq<ResponseEntry>): seq<ResponseEntry>
    decreases |resp|
  {
    if resp == [] then []
    else
      var e := resp[|resp| - 1];
      PermanentErrors(resp[..|resp| - 1]) + (if e.code != OK && !ShouldRetry(e.code) then [e] else [])
  }

  predicate Distinct(s: seq<int>) { forall i, j :: 0 <= i < j < |s| ==> s[i] != s[j] }

  predicate InRange(s: seq<int>, n: int) { forall k :: 0 <= k < |s| ==> 0 <= s[k] < n }

  /** What one attempt does with a response: every permanent error is
      recorded in order; the next request holds exactly the entries at the
      retryable indices, in response order; those entries are emptied in the
      old request and every other entry, reported OK or not reported at all,
      stays where it was and is not resent. An out-of-range index is caught
      exactly when some retryable index is out of range. */
  lemma {:induction false} SortResponsesSpec(request: seq<Entry>, resp: seq<ResponseEntry>)
    ensures SortResponses(request, resp).badIndex.None? <==> InRange(RetryIndices(resp), |request|)
    ensures SortResponses(request, resp).badIndex.None? ==> SortResponses(request, resp).permanent == PermanentErrors(resp)
    ensures SortResponses(request, resp).badIndex.None? && Distinct(RetryIndices(resp)) ==>
      Moved(request, RetryIndices(resp), SortResponses(request, resp))
    decreases |resp|
  {
    if resp != [] {
      var init := resp[..|resp| - 1];
      var e := resp[|resp| - 1];
      SortResponsesSpec(request, init);
      var a := SortResponses(request, init);
      var ix := RetryIndices(init);
      if e.code != OK && ShouldRetry(e.code) {
        var ix' := ix + [e.index];
        assert RetryIndices(resp) == ix';
        assert PermanentErrors(resp) == PermanentErrors(init);
        if !InRange(ix, |request|) {
          assert !InRange(ix', |request|) by {
            var k :| 0 <= k < |ix| && !(0 <= ix[k] < |request|);
            assert ix'[k] == ix[k];
          }
        } else if !(0 <= e.index < |request|) {
          assert ix'[|ix|] == e.index;
        } else {
          assert InRange(ix', |request|);
          if Distinct(ix') {
            MovedStep(request, ix, e.index, a);
          }
        }
      } else {
        assert RetryIndices(resp) == ix;
        var a' := SortResponses(request, resp);
        assert a'.request == a.request && a'.retry == a.retry && a'.badIndex == a.badIndex;
        if a.badIndex.None? && Distinct(ix) {
          assert Moved(request, ix, a);
        }
      }
    }
  }

  /** The entries at the indices ix have been moved, in order, into a.retry,
      leaving empty entries behind; all other entries are untouched. */
  ghost predicate Moved(request: seq<Entry>, ix: seq<int>, a: Attempt)
  {
    InRange(ix, |request|) && |a.request| == |request| && |a.retry| == |ix|
    && (forall k :: 0 <= k < |ix| ==> a.retry[k] == request[ix[k]])
    && (forall j :: 0 <= j < |request| ==> a.request[j] == if j in ix then EmptyEntry else request[j])
  }

  lemma MovedStep(request: seq<Entry>, ix: seq<int>, i: int, a: Attempt)
    requires Distinct(ix + [i]) && 0 <= i < |request| && InRange(ix, |request|) && |a.request| == |request|
    requires Distinct(ix) ==> Moved(request, ix, a)
    ensures Moved(request, ix + [i], a.(request := a.request[i := EmptyEntry], retry := a.retry + [a.request[i]]))
  {
    var ix' := ix + [i];
    assert Distinct(ix) by {
      forall p, q | 0 <= p < q < |ix| ensures ix[p] != ix[q] { assert ix'[p] == ix[p] && ix'[q] == ix[q]; }
    }
    assert i !in ix by {
      forall k | 0 <= k < |ix| ensures ix[k] != i { assert ix'[k] == ix[k] && ix'[|ix|] == i; }
    }
    var a' := a.(request := a.request[i := EmptyEntry], retry := a.retry + [a.request[i]]);
    forall k | 0 <= k < |ix'| ensures a'.retry[k] == request[ix'[k]] {
      if k < |ix| { assert a'.retry[k] == a.retry[k] && ix'[k] == ix[k]; }
    }
    forall j | 0 <= j < |request| ensures a'.request[j] == if j in ix' then EmptyEntry else request[j] {
      assert (j in ix') == (j in ix || j == i);
    }
  }

  // ---------------------------------------------------------------------
  // The retry loop.

  datatype Outcome =
    | Completed
    | PermanentFailure(errors: seq<ResponseEntry>)
    | RetriesExhausted
    | IndexOutOfRange(index: int)

  /** The result of mutate_with_retries: how it ended, the entries left in
      the caller's request, the sleeps (in milliseconds) and the number of
      MutateRows calls. */
  datatype RunResult = RunResult(outcome: Outcome, entries: seq<Entry>, sleeps: seq<nat>, attempts: nat)

  /** The backoff is doubled and capped at five minutes. */
  function NextBackoff(backoff: nat): nat
  {
    if backoff * 2 > MaximumBackoffMs then MaximumBackoffMs else backoff * 2
  }

  /** mutate_with_retries from attempt `attempt` on, with the current backoff
      and the request's entries; respond(i) is the response stream of the
      i-th MutateRows call. */
  function Run(entries: seq<Entry>, respond: nat -> seq<ResponseEntry>, attempt: nat, backoff: nat): RunResult
    requires attempt <= MaxRetries
    decreases MaxRetries - attempt
  {
    if attempt == MaxRetries then RunResult(RetriesExhausted, entries, [], 0)
    else
      var a := SortResponses(entries, respond(attempt));
      if a.badIndex.Some? then RunResult(IndexOutOfRange(a.badIndex.value), a.request, [], 1)
      else if a.permanent != [] then RunResult(PermanentFailure(a.permanent), a.request, [], 1)
      else if a.retry == [] then RunResult(Completed, [], [], 1)
      else
        var b := NextBackoff(backoff);
        var r := Run(a.retry, respond, attempt + 1, b);
        r.(sleeps := [b] + r.sleeps, attempts := r.attempts + 1)
  }

  /** Any permanent error in an attempt ends the call with all of that
      attempt's permanent errors, whatever else was retryable, and without
      another attempt or sleep. */
  lemma PermanentErrorAborts(entries: seq<Entry>, respond: nat -> seq<ResponseEntry>, attempt: nat, backoff: nat)
    requires attempt < MaxRetries
    requires InRange(RetryIndices(respond(attempt)), |entries|)
    requires PermanentErrors(respond(attempt)) != []
    ensures Run(entries, respond, attempt, backoff)
      == RunResult(PermanentFailure(PermanentErrors(respond(attempt))), SortResponses(entries, respond(attempt)).request, [], 1)
  {
    SortResponsesSpec(entries, respond(attempt));
  }

  /** When the call completes, the caller's request has no entries left. */
  lemma {:induction false} CompletedClearsRequest(entries: seq<Entry>, respond: nat -> seq<ResponseEntry>, attempt: nat, backoff: nat)
    requires attempt <= MaxRetries
    ensures Run(entries, respond, attempt, backoff).outcome == Completed ==> Run(entries, respond, attempt, backoff).entries == []
    decreases MaxRetries - attempt
  {
    if attempt < MaxRetries {
      var a := SortResponses(entries, respond(attempt));
      if a.badIndex.None? && a.permanent == [] && a.retry != [] {
        CompletedClearsRequest(a.retry, respond, attempt + 1, NextBackoff(backoff));
      }
    }
  }

  /** The attempt budget: at most MaxRetries calls; a call that gives up has
      made all of them and slept after each, any other outcome slept after
      every call but the last. */
  lemma {:induction false} AttemptBudget(entries: seq<Entry>, respond: nat -> seq<ResponseEntry>, attempt: nat, backoff: nat)
    requires attempt <= MaxRetries
    ensures var r := Run(entries, respond, attempt, backoff);
      r.attempts <= MaxRetries - attempt
      && (r.outcome == RetriesExhausted ==> r.attempts == MaxRetries - attempt && |r.sleeps| == r.attempts)
      && (r.outcome != RetriesExhausted ==> r.attempts >= 1 && |r.sleeps| == r.attempts - 1)
    decreases MaxRetries - attempt
  {
    if attempt < MaxRetries {
      var a := SortResponses(entries, respond(attempt));
      if a.badIndex.None? && a.permanent == [] && a.retry != [] {
        AttemptBudget(a.retry, respond, attempt + 1, NextBackoff(backoff));
      }
    }
  }

  function Pow2(n: nat): nat
  {
    if n == 0 then 1 else 2 * Pow2(n - 1)
  }

  function Min(a: int, b: int): int { if a <= b then a else b }

  /** The n-th backoff, starting from backoff b. */
  function BackoffAfter(b: nat, n: nat): nat
  {
    if n == 0 then b else NextBackoff(BackoffAfter(b, n - 1))
  }

  /** The backoff starting at 10 ms is 10 * 2^n ms, capped at five minutes. */
  lemma {:induction false} BackoffClosedForm(n: nat)
    ensures BackoffAfter(InitialBackoffMs, n) == Min(InitialBackoffMs * Pow2(n), MaximumBackoffMs)
  {
    if n > 0 {
      BackoffClosedForm(n - 1);
    }
  }

  lemma {:induction false} BackoffMonotone(b: nat, m: nat, n: nat)
    requires b <= MaximumBackoffMs && m <= n
    ensures BackoffAfter(b, m) <= BackoffAfter(b, n) <= MaximumBackoffMs
    decreases n
  {
    if m < n {
      BackoffMonotone(b, m, n - 1);
    } else if n > 0 {
      BackoffMonotone(b, n - 1, n - 1);
    }
  }

  lemma {:induction false} RunSleeps(entries: seq<Entry>, respond: nat -> seq<ResponseEntry>, attempt: nat, backoff: nat)
    requires attempt <= MaxRetries
    ensures forall k :: 0 <= k < |Run(entries, respond, attempt, backoff).sleeps| ==>
      Run(entries, respond, attempt, backoff).sleeps[k] == BackoffAfter(backoff, k + 1)
    decreases MaxRetries - attempt
  {
    if attempt < MaxRetries {
      var a := SortResponses(entries, respond(attempt));
      if a.badIndex.None? && a.permanent == [] && a.retry != [] {
        var b := NextBackoff(backoff);
        RunSleeps(a.retry, respond, attempt + 1, b);
        var r := Run(a.retry, respond, attempt + 1, b);
        assert forall k :: 0 <= k < |r.sleeps| ==> r.sleeps[k] == BackoffAfter(b, k + 1);
        assert Run(entries, respond, attempt, backoff).sleeps == [b] + r.sleeps;
        forall k | 0 <= k < |r.sleeps| ensures r.sleeps[k] == BackoffAfter(backoff, k + 2) {
          assert r.sleeps[k] == BackoffAfter(b, k + 1);
          BackoffShift(backoff, k + 1);
        }
      }
    }
  }

  lemma {:induction false} BackoffShift(b: nat, n: nat)
    ensures BackoffAfter(NextBackoff(b), n) == BackoffAfter(b, n + 1)
  {
    if n > 0 {
      BackoffShift(b, n - 1);
    }
  }

  /** The sleeps of a whole mutate_with_retries call. */
  function Sleeps(entries: seq<Entry>, respond: nat -> seq<ResponseEntry>): seq<nat>
  {
    Run(entries, respond, 0, InitialBackoffMs).sleeps
  }

  /** The sleeps of a call are 20 ms, 40 ms, ... doubling up to five minutes:
      the k-th is min(10 * 2^(k+1), 300000) ms, they never decrease and never
      exceed five minutes. */
  lemma BackoffSchedule(entries: seq<Entry>, respond: nat -> seq<ResponseEntry>)
    ensures forall k :: 0 <= k < |Sleeps(entries, respond)| ==>
      Sleeps(entries, respond)[k] == Min(InitialBackoffMs * Pow2(k + 1), MaximumBackoffMs)
    ensures forall i, j :: 0 <= i <= j < |Sleeps(entries, respond)| ==>
      Sleeps(entries, respond)[i] <= Sleeps(entries, respond)[j] <= MaximumBackoffMs
  {
    var r := Run(entries, respond, 0, InitialBackoffMs);
    assert Sleeps(entries, respond) == r.sleeps;
    RunSleeps(entries, respond, 0, InitialBackoffMs);
    forall k | 0 <= k < |r.sleeps| ensures r.sleeps[k] == Min(InitialBackoffMs * Pow2(k + 1), MaximumBackoffMs) {
      assert r.sleeps[k] == BackoffAfter(InitialBackoffMs, k + 1);
      BackoffClosedForm(k + 1);
    }
    forall i, j | 0 <= i <= j < |r.sleeps| ensures r.sleeps[i] <= r.sleeps[j] <= MaximumBackoffMs {
      assert r.sleeps[i] == BackoffAfter(InitialBackoffMs, i + 1);
      assert r.sleeps[j] == BackoffAfter(InitialBackoffMs, j + 1);
      BackoffMonotone(InitialBackoffMs, i + 1, j + 1);
    }
  }

  /** The result of the calls made so far followed by the rest of the run. */
  function Prepend(sleeps: seq<nat>, r: RunResult): RunResult
  {
    r.(sleeps := sleeps + r.sleeps, attempts := |sleeps| + r.attempts)
  }

  /** One step of Run: how the call made at `attempt` ends, or continues. */
  lemma RunOneAttempt(entries: seq<Entry>, respond: nat -> seq<ResponseEntry>, attempt: nat, backoff: nat)
    requires attempt < MaxRetries
    ensures var a := SortResponses(entries, respond(attempt));
      Run(entries, respond, attempt, backoff) ==
        if a.badIndex.Some? then RunResult(IndexOutOfRange(a.badIndex.value), a.request, [], 1)
        else if a.permanent != [] then RunResult(PermanentFailure(a.permanent), a.request, [], 1)
        else if a.retry == [] then RunResult(Completed, [], [], 1)
        else Prepend([NextBackoff(backoff)], Run(a.retry, respond, attempt + 1, NextBackoff(backoff)))
  {
  }

  lemma PrependSleep(sleeps: seq<nat>, b: nat, r: RunResult)
    ensures Prepend(sleeps, Prepend([b], r)) == Prepend(sleeps + [b], r)
  {
    assert sleeps + ([b] + r.sleeps) == sleeps + [b] + r.sleeps;
  }

  lemma BadIndexSticky(request: seq<Entry>, resp: seq<ResponseEntry>, k: nat)
    requires k <= |resp|
    requires SortResponses(request, resp[..k]).badIndex.Some?
    ensures SortResponses(request, resp) == SortResponses(request, resp[..k])
    decreases |resp| - k
  {
    if k < |resp| {
      assert resp[..k + 1][..k] == resp[..k];
      BadIndexSticky(request, resp, k + 1);
    } else {
      assert resp[..k] == resp;
    }
  }

  /** A MutateRowsRequest: the table and the entries to apply. */
  class MutateRowsRequest {
    var tableName: string
    var entries: seq<Entry>

    constructor (tableName: string)
      ensures this.tableName == tableName && entries == []
    {
      this.tableName := tableName;
      entries := [];
    }

    /** append_to_request. */
    method AppendToRequest(yyyymmdd: string, quotes: Quotes)
      modifies this
      ensures entries == old(entries) + [MakeEntry(yyyymmdd, quotes)]
      ensures tableName == old(tableName)
    {
      entries := entries + [MakeEntry(yyyymmdd, quotes)];
    }

    /** The loop over the response stream of one MutateRows call: OK
        entries are skipped, permanent errors collected, and each retryable
        entry is swapped out of this request into the next one. */
    method ApplyResponse(resp: seq<ResponseEntry>) returns (tmp: seq<Entry>, permanent: seq<ResponseEntry>, bad: Option<int>)
      modifies this
      ensures tableName == old(tableName)
      ensures SortResponses(old(entries), resp) == Attempt(entries, tmp, permanent, bad)
    {
      tmp := [];
      permanent := [];
      bad := None;
      var k := 0;
      while k < |resp|
        invariant 0 <= k <= |resp|
        invariant tableName == old(tableName)
        invariant SortResponses(old(entries), resp[..k]) == Attempt(entries, tmp, permanent, None)
      {
        var e := resp[k];
        assert resp[..k + 1] == resp[..k] + [e];
        if e.code != OK {
          if !ShouldRetry(e.code) {
            permanent := permanent + [e];
          } else if 0 <= e.index < |entries| {
            // tmp.add_entries()->Swap(request.mutable_entries(index))
            tmp := tmp + [entries[e.index]];
            entries := entries[e.index := EmptyEntry];
          } else {
            BadIndexSticky(old(entries), resp, k + 1);
            bad := Some(e.index);
            return;
          }
        }
        k := k + 1;
      }
      assert resp[..k] == resp;
    }

    /** mutate_with_retries: up to MaxRetries MutateRows calls; respond(i) is
        the response of the i-th call. The outcome stands for the exception
        the program throws on a permanent error or when it gives up. */
    method MutateWithRetries(respond: nat -> seq<ResponseEntry>) returns (outcome: Outcome, sleeps: seq<nat>)
      modifies this
      ensures tableName == old(tableName)
      ensures var r := Run(old(entries), respond, 0, InitialBackoffMs);
        outcome == r.outcome && entries == r.entries && sleeps == r.sleeps
    {
      var backoff := InitialBackoffMs;
      sleeps := [];
      var i := 0;
      ghost var total := Run(entries, respond, 0, InitialBackoffMs);
      while i != MaxRetries
        invariant 0 <= i <= MaxRetries && |sleeps| == i
        invariant tableName == old(tableName)
        invariant total == Prepend(sleeps, Run(entries, respond, i, backoff))
        decreases MaxRetries - i
      {
        RunOneAttempt(entries, respond, i, backoff);
        ghost var rest := Run(entries, respond, i, backoff);
        var tmp, permanent, bad := ApplyResponse(respond(i));
        if bad.Some? {
          assert rest == RunResult(IndexOutOfRange(bad.value), entries, [], 1);
          outcome := IndexOutOfRange(bad.value);
          return;
        }
        if permanent != [] {
          assert rest == RunResult(PermanentFailure(permanent), entries, [], 1);
          outcome := PermanentFailure(permanent);
          return;
        }
        if tmp == [] {
          assert rest == RunResult(Completed, [], [], 1);
          entries := [];
          outcome := Completed;
          return;
        }
        // ... the table name moves to the new request, which replaces the old ...
        entries := tmp;
        backoff := NextBackoff(backoff);
        PrependSleep(sleeps, backoff, Run(entries, respond, i + 1, backoff));
        sleeps := sleeps + [backoff];
        i := i + 1;
      }
      outcome := RetriesExhausted;
    }
  }

  // ---------------------------------------------------------------------
  // Grouping the quotes by ticker.

  /** The Quotes already turned into entries and the one being filled. */
  datatype Grouping = Grouping(closed: seq<Quotes>, current: Quotes)

  /** The grouping main performs: a quote with the ticker of the current
      Quotes is added to it; a different ticker closes the current Quotes
      (which becomes an entry only if its ticker is non-empty) and starts a
      new one. The first Quotes has the empty ticker. */
  function GroupByTicker(qs: seq<Quote>): Grouping
    decreases |qs|
  {
    if qs == [] then Grouping([], Quotes("", []))
    else
      var g := GroupByTicker(qs[..|qs| - 1]);
      var q := qs[|qs| - 1];
      if g.current.ticker != q.ticker then
        Grouping(if g.current.ticker != "" then g.closed + [g.current] else g.closed, Quotes(q.ticker, [SampleOf(q)]))
      else Grouping(g.closed, g.current.(samples := g.current.samples + [SampleOf(q)]))
  }

  function QuoteOf(ticker: string, s: Sample): Quote
  {
    Quote(s.timestampNs, ticker, s.bidPx, s.bidQty, s.offerPx, s.offerQty)
  }

  /** The quotes a Quotes message holds, with its ticker. */
  function QuotesOf(g: Quotes): (r: seq<Quote>)
    ensures |r| == |g.samples|
  {
    seq(|g.samples|, i requires 0 <= i < |g.samples| => QuoteOf(g.ticker, g.samples[i]))
  }

  /** The quotes of a sequence of Quotes messages, in order. */
  function Expand(groups: seq<Quotes>): seq<Quote>
  {
    if groups == [] then [] else Expand(groups[..|groups| - 1]) + QuotesOf(groups[|groups| - 1])
  }

  /** Every group is non-empty with a non-empty ticker, and neighbours have
      different tickers. */
  ghost predicate WellGrouped(groups: seq<Quotes>)
  {
    (forall k :: 0 <= k < |groups| ==> groups[k].samples != [] && groups[k].ticker != "")
    && (forall k :: 0 <= k < |groups| - 1 ==> groups[k].ticker != groups[k + 1].ticker)
  }

  /** All the Quotes main turns into entries: the closed ones and, at the end,
      the current one. */
  function AllGroups(qs: seq<Quote>): seq<Quotes>
  {
    GroupByTicker(qs).closed + [GroupByTicker(qs).current]
  }

  lemma QuotesOfAppend(g: Quotes, s: Sample)
    ensures QuotesOf(g.(samples := g.samples + [s])) == QuotesOf(g) + [QuoteOf(g.ticker, s)]
  {
  }

  lemma ExpandSnoc(groups: seq<Quotes>, g: Quotes)
    ensures Expand(groups + [g]) == Expand(groups) + QuotesOf(g)
  {
    assert (groups + [g])[..|groups|] == groups;
  }

  /** A quote with a new ticker starts a new group. */
  lemma NewGroupStep(closed: seq<Quotes>, cur: Quotes, q: Quote)
    requires WellGrouped(closed + [cur]) && q.ticker != "" && q.ticker != cur.ticker
    ensures WellGrouped(closed + [cur] + [Quotes(q.ticker, [SampleOf(q)])])
    ensures Expand(closed + [cur] + [Quotes(q.ticker, [SampleOf(q)])]) == Expand(closed + [cur]) + [q]
  {
    var gs := closed + [cur];
    assert gs[|gs| - 1] == cur;
    ExpandSnoc(gs, Quotes(q.ticker, [SampleOf(q)]));
    assert QuotesOf(Quotes(q.ticker, [SampleOf(q)])) == [q];
  }

  /** A quote with the current ticker joins the current group. */
  lemma SameGroupStep(closed: seq<Quotes>, cur: Quotes, q: Quote)
    requires WellGrouped(closed + [cur]) && q.ticker == cur.ticker
    ensures WellGrouped(closed + [cur.(samples := cur.samples + [SampleOf(q)])])
    ensures Expand(closed + [cur.(samples := cur.samples + [SampleOf(q)])]) == Expand(closed + [cur]) + [q]
  {
    var c := cur.(samples := cur.samples + [SampleOf(q)]);
    var gs := closed + [cur];
    var hs := closed + [c];
    assert forall k :: 0 <= k < |hs| ==> hs[k].ticker == gs[k].ticker && hs[k].samples != [];
    ExpandSnoc(closed, cur);
    ExpandSnoc(closed, c);
    QuotesOfAppend(cur, SampleOf(q));
    assert QuoteOf(q.ticker, SampleOf(q)) == q;
  }

  /** The grouping of a single quote. */
  lemma GroupingOne(q: Quote)
    requires q.ticker != ""
    ensures Expand(AllGroups([q])) == [q] && WellGrouped(AllGroups([q]))
  {
    assert [q][..0] == [];
    assert GroupByTicker([]) == Grouping([], Quotes("", []));
    assert GroupByTicker([q]) == Grouping([], Quotes(q.ticker, [SampleOf(q)]));
    assert AllGroups([q]) == [] + [Quotes(q.ticker, [SampleOf(q)])];
    ExpandSnoc([], Quotes(q.ticker, [SampleOf(q)]));
    assert QuotesOf(Quotes(q.ticker, [SampleOf(q)])) == [q];
  }

  /** One more quote keeps the grouping faithful. */
  lemma GroupingStep(init: seq<Quote>, q: Quote)
    requires init != [] && q.ticker != ""
    requires Expand(AllGroups(init)) == init && WellGrouped(AllGroups(init))
    ensures Expand(AllGroups(init + [q])) == init + [q] && WellGrouped(AllGroups(init + [q]))
  {
    assert (init + [q])[..|init|] == init;
    var g := GroupByTicker(init);
    if g.current.ticker != q.ticker {
      NewGroupStep(g.closed, g.current, q);
      assert AllGroups(init + [q]) == g.closed + [g.current] + [Quotes(q.ticker, [SampleOf(q)])];
    } else {
      SameGroupStep(g.closed, g.current, q);
    }
  }

  /** When every ticker is non-empty, grouping loses, adds and reorders
      nothing: the Quotes hold the quotes in file order, each of them is
      non-empty, and consecutive Quotes have different tickers. */
  lemma {:induction false} GroupingPreservesQuotes(qs: seq<Quote>)
    requires qs != [] && forall i :: 0 <= i < |qs| ==> qs[i].ticker != ""
    ensures Expand(AllGroups(qs)) == qs
    ensures WellGrouped(AllGroups(qs))
    decreases |qs|
  {
    var init := qs[..|qs| - 1];
    assert qs == init + [qs[|qs| - 1]];
    if init == [] {
      GroupingOne(qs[0]);
    } else {
      GroupingPreservesQuotes(init);
      GroupingStep(init, qs[|qs| - 1]);
    }
  }

  function MakeEntries(yyyymmdd: string, groups: seq<Quotes>): (r: seq<Entry>)
    ensures |r| == |groups|
  {
    if groups == [] then [] else MakeEntries(yyyymmdd, groups[..|groups| - 1]) + [MakeEntry(yyyymmdd, groups[|groups| - 1])]
  }

  function Flatten(batches: seq<seq<Entry>>): seq<Entry>
  {
    if batches == [] then [] else Flatten(batches[..|batches| - 1]) + batches[|batches| - 1]
  }

  // ---------------------------------------------------------------------
  // Reading the file.

  /** The stream main reads: the file's content, or a stream in the failed
      state when the file cannot be opened. */
  function OpenFile(file: Option<string>): (s: InputStream)
    ensures s.Valid()
  {
    match file
    case Some(content) => Open(content)
    case None => InputStream("", 0, false, true)
  }

  /** The stream after the header line is skipped. */
  function AfterHeader(file: Option<string>): (s: InputStream)
    ensures s.Valid()
  {
    GetLine(OpenFile(file), '\n').0
  }

  /** The lines the upload loop parses, at most `budget` of them: the loop
      runs while the stream is good and stops at the first getline that
      fails. */
  function ReadLines(s: InputStream, budget: nat): seq<string>
    requires s.Valid()
    decreases budget
  {
    if budget == 0 || !s.Good() then []
    else
      var (s', line) := GetLine(s, '\n');
      if s'.fail then [] else [line] + ReadLines(s', budget - 1)
  }

  /** The lines the loop of the program as written parses: it tests the
      stream before each getline but not after it, so the empty line of a
      getline that failed at the end of the file is parsed as well. */
  function ReadLinesAsWritten(s: InputStream, budget: nat): seq<string>
    requires s.Valid()
    decreases budget
  {
    if budget == 0 || !s.Good() then []
    else
      var (s', line) := GetLine(s, '\n');
      [line] + ReadLinesAsWritten(s', budget - 1)
  }

  /** The lines main's loop parses: as written (asWritten), or with the
      loop stopping at the first getline that fails. */
  function LinesRead(s: InputStream, budget: nat, asWritten: bool): seq<string>
    requires s.Valid()
  {
    if asWritten then ReadLinesAsWritten(s, budget) else ReadLines(s, budget)
  }

  /** The data lines of the file main parses: after the header, at most
      MaxLinesToUpload - 1 of them. */
  function FileLines(file: Option<string>, asWritten: bool): seq<string>
  {
    LinesRead(AfterHeader(file), MaxLinesToUpload - 1, asWritten)
  }

  /** Text made of lines each ending in a newline. */
  function Terminated(lines: seq<string>): string
  {
    if lines == [] then "" else lines[0] + "\n" + Terminated(lines[1..])
  }

  predicate NoNewlines(lines: seq<string>)
  {
    forall k :: 0 <= k < |lines| ==> NoDelimiter(lines[k], '\n')
  }

  /** A good stream whose remaining data are the given lines, each ending
      in a newline. */
  predicate AtLines(s: InputStream, lines: seq<string>)
  {
    s.Valid() && s.Good() && NoNewlines(lines) && s.data[s.pos..] == Terminated(lines)
  }

  /** The stream just past the first of the lines. */
  function Past(s: InputStream, lines: seq<string>): InputStream
    requires lines != []
  {
    s.(pos := s.pos + |lines[0]| + 1)
  }

  /** Reading the first of newline-terminated lines yields it and leaves the
      stream good at the start of the next one. */
  lemma GetLineTerminated(s: InputStream, lines: seq<string>)
    requires AtLines(s, lines) && lines != []
    ensures GetLine(s, '\n') == (Past(s, lines), lines[0])
    ensures AtLines(Past(s, lines), lines[1..])
  {
    var rest := Terminated(lines[1..]);
    assert s.data[s.pos..] == lines[0] + ['\n'] + rest;
    assert NoDelimiter(lines[0], '\n');
    GetLineField(s, '\n', lines[0], rest);
    assert s.data[s.pos..][|lines[0]| + 1..] == rest;
    assert NoNewlines(lines[1..]) by {
      forall k | 0 <= k < |lines[1..]| ensures NoDelimiter(lines[1..][k], '\n') { assert lines[1..][k] == lines[k + 1]; }
    }
  }

  /** One step of the loop as written over newline-terminated lines. */
  lemma AsWrittenStep(s: InputStream, lines: seq<string>, budget: nat)
    requires AtLines(s, lines) && lines != [] && budget > 0
    requires ReadLinesAsWritten(Past(s, lines), budget - 1) == lines[1..] + [""]
    ensures ReadLinesAsWritten(s, budget) == lines + [""]
  {
    GetLineTerminated(s, lines);
    assert lines + [""] == [lines[0]] + (lines[1..] + [""]);
  }

  /** One step of the corrected loop over newline-terminated lines. */
  lemma ReadStepTerminated(s: InputStream, lines: seq<string>, budget: nat)
    requires AtLines(s, lines) && lines != [] && budget > 0
    requires ReadLines(Past(s, lines), budget - 1) == lines[1..]
    ensures ReadLines(s, budget) == lines
  {
    GetLineTerminated(s, lines);
    assert lines == [lines[0]] + lines[1..];
  }

  /** At the end of the data both loops read nothing more: the loop as
      written still parses the empty line of the failed getline. */
  lemma ReadAtEnd(s: InputStream, budget: nat)
    requires AtLines(s, []) && budget > 0
    ensures ReadLinesAsWritten(s, budget) == [""]
    ensures ReadLines(s, budget) == []
  {
    GetLineAtEnd(s, '\n');
    assert ReadLinesAsWritten(s.(eof := true, fail := true), budget - 1) == [];
  }

  /** On a file whose every line ends in a newline, the loop as written
      parses one more line than the file has: an empty one. */
  lemma {:induction false} AsWrittenReadsExtraLine(s: InputStream, lines: seq<string>, budget: nat)
    requires AtLines(s, lines) && |lines| < budget
    ensures ReadLinesAsWritten(s, budget) == lines + [""]
    decreases |lines|
  {
    if lines == [] {
      ReadAtEnd(s, budget);
    } else {
      GetLineTerminated(s, lines);
      AsWrittenReadsExtraLine(Past(s, lines), lines[1..], budget - 1);
      AsWrittenStep(s, lines, budget);
    }
  }

  /** The corrected loop reads exactly the lines of such a file. */
  lemma {:induction false} ReadsTerminatedLines(s: InputStream, lines: seq<string>, budget: nat)
    requires AtLines(s, lines) && |lines| < budget
    ensures ReadLines(s, budget) == lines
    decreases |lines|
  {
    if lines == [] {
      ReadAtEnd(s, budget);
    } else {
      GetLineTerminated(s, lines);
      ReadsTerminatedLines(Past(s, lines), lines[1..], budget - 1);
      ReadStepTerminated(s, lines, budget);
    }
  }

  /** The trailing-newline defect: for a file of a header and data lines,
      each ending in a newline, the loop as written hands an empty last line
      to parse_taq_line, which always fails, so the parse of the file fails
      and main returns 1 (see UploadTaqBatch) without sending the last
      batch; the corrected loop parses exactly the data lines. */
  lemma TrailingNewlineFailsUpload(header: string, lines: seq<string>)
    requires NoDelimiter(header, '\n') && NoNewlines(lines) && |lines| < MaxLinesToUpload - 1
    ensures FileLines(Some(header + "\n" + Terminated(lines)), true) == lines + [""]
    ensures ParseTaqLine(|lines| + 1, "").Err?
    ensures ParseAll(FileLines(Some(header + "\n" + Terminated(lines)), true), 1, ParseTaqLine).Err?
    ensures FileLines(Some(header + "\n" + Terminated(lines)), false) == lines
  {
    var content := header + "\n" + Terminated(lines);
    var s0 := Open(content);
    assert content[0..] == header + ['\n'] + Terminated(lines);
    GetLineField(s0, '\n', header, Terminated(lines));
    var s := s0.(pos := |header| + 1);
    assert s.data[s.pos..] == Terminated(lines);
    AsWrittenReadsExtraLine(s, lines, MaxLinesToUpload - 1);
    ReadsTerminatedLines(s, lines, MaxLinesToUpload - 1);
    ParseAllLastFails(lines, "", 1, ParseTaqLine);
  }

  /** The parser main applies to each line: parse_taq_line, given the
      line number and the line. */
  type LineParser = (int, string) -> Result<Quote, ParseError>

  /** Parsing the lines in order, numbered from `first`; the first failure
      ends the parse. */
  function ParseAll(lines: seq<string>, first: int, parse: LineParser): (r: Result<seq<Quote>, ParseError>)
    ensures r.Ok? ==> |r.value| == |lines|
    decreases |lines|
  {
    if lines == [] then Ok([])
    else
      match ParseAll(lines[..|lines| - 1], first, parse)
      case Err(e) => Err(e)
      case Ok(qs) =>
        match parse(first + |lines| - 1, lines[|lines| - 1])
        case Err(e) => Err(e)
        case Ok(q) => Ok(qs + [q])
  }

  /** A line that fails to parse fails the parse of every list it ends. */
  lemma ParseAllLastFails(lines: seq<string>, line: string, first: int, parse: LineParser)
    requires parse(first + |lines|, line).Err?
    ensures ParseAll(lines + [line], first, parse).Err?
  {
    assert (lines + [line])[..|lines|] == lines;
  }

  /** Parsing a prefix of the lines: when all the lines parse, so does the
      prefix, into the first quotes. */
  lemma {:induction false} ParsePrefix(read: seq<string>, rest: seq<string>, parse: LineParser)
    ensures ParseAll(read + rest, 1, parse).Ok? ==>
      ParseAll(read, 1, parse).Ok? && ParseAll(read, 1, parse).value <= ParseAll(read + rest, 1, parse).value
    decreases |rest|
  {
    if rest == [] {
      assert read + rest == read;
    } else {
      var init := rest[..|rest| - 1];
      ParsePrefix(read, init, parse);
      assert (read + rest)[..|read + rest| - 1] == read + init;
    }
  }

  lemma ParseAllStep(read: seq<string>, line: string, qs: seq<Quote>, parse: LineParser)
    requires ParseAll(read, 1, parse) == Ok(qs)
    ensures parse(|read| + 1, line).Ok? ==> ParseAll(read + [line], 1, parse) == Ok(qs + [parse(|read| + 1, line).value])
    ensures parse(|read| + 1, line).Err? ==> ParseAll(read + [line], 1, parse).Err?
  {
    var lines := read + [line];
    assert lines[..|lines| - 1] == read && lines[|lines| - 1] == line;
  }


  /** One more line read by the loop keeps `read` a prefix of all the
      lines it will read. */
  lemma ReadStep(read: seq<string>, s: InputStream, budget: nat, all: seq<string>, asWritten: bool)
    requires s.Valid() && s.Good() && budget > 0 && (asWritten || !GetLine(s, '\n').0.fail)
    requires read + LinesRead(s, budget, asWritten) == all
    ensures (read + [GetLine(s, '\n').1]) + LinesRead(GetLine(s, '\n').0, budget - 1, asWritten) == all
  {
    var (s', line) := GetLine(s, '\n');
    assert LinesRead(s, budget, asWritten) == [line] + LinesRead(s', budget - 1, asWritten);
    assert read + ([line] + LinesRead(s', budget - 1, asWritten))
      == (read + [line]) + LinesRead(s', budget - 1, asWritten);
  }

  /** Once the budget is spent or the stream is no longer good, the loop has
      read every line it reads. */
  lemma ReadToEnd(read: seq<string>, s: InputStream, budget: nat, all: seq<string>, asWritten: bool)
    requires Reading(read, s, budget, all, asWritten) && (budget == 0 || !s.Good())
    ensures read == all
  {
    assert LinesRead(s, budget, asWritten) == [];
  }

  /** The entries sent or pending stay those of the closed Quotes when one
      more quote is grouped. */
  lemma PendingStep(yyyymmdd: string, done: seq<Entry>, pending: seq<Entry>, qs: seq<Quote>, q: Quote)
    requires done + pending == MakeEntries(yyyymmdd, GroupByTicker(qs).closed)
    ensures done + (pending + NewlyClosed(yyyymmdd, qs, q)) == MakeEntries(yyyymmdd, GroupByTicker(qs + [q]).closed)
  {
    GroupStep(yyyymmdd, qs, q);
  }

  /** The entry the next quote closes: the current Quotes when the ticker
      changes, unless it is the initial empty one. */
  function NewlyClosed(yyyymmdd: string, qs: seq<Quote>, q: Quote): seq<Entry>
  {
    var g := GroupByTicker(qs);
    if g.current.ticker != q.ticker && g.current.ticker != "" then [MakeEntry(yyyymmdd, g.current)] else []
  }

  /** How one more quote changes the grouping, and the entries of the closed
      Quotes. */
  lemma GroupStep(yyyymmdd: string, qs: seq<Quote>, q: Quote)
    ensures var g := GroupByTicker(qs);
      GroupByTicker(qs + [q]) ==
        if g.current.ticker != q.ticker then
          Grouping(if g.current.ticker != "" then g.closed + [g.current] else g.closed, Quotes(q.ticker, [SampleOf(q)]))
        else Grouping(g.closed, g.current.(samples := g.current.samples + [SampleOf(q)]))
    ensures MakeEntries(yyyymmdd, GroupByTicker(qs + [q]).closed) == MakeEntries(yyyymmdd, GroupByTicker(qs).closed) + NewlyClosed(yyyymmdd, qs, q)
  {
    assert (qs + [q])[..|qs|] == qs;
  }

  /** The entries of all the groups: those of the closed ones, then the
      entry of the current one. */
  lemma AllGroupsEntries(yyyymmdd: string, qs: seq<Quote>)
    ensures MakeEntries(yyyymmdd, AllGroups(qs)) == MakeEntries(yyyymmdd, GroupByTicker(qs).closed) + [MakeEntry(yyyymmdd, GroupByTicker(qs).current)]
  {
    var g := GroupByTicker(qs);
    assert (g.closed + [g.current])[..|g.closed|] == g.closed;
  }

  lemma FlattenSnoc(batches: seq<seq<Entry>>, b: seq<Entry>)
    ensures Flatten(batches + [b]) == Flatten(batches) + b
  {
    assert (batches + [b])[..|batches|] == batches;
  }

  lemma {:induction false} FlattenCons(b: seq<Entry>, batches: seq<seq<Entry>>)
    ensures Flatten([b] + batches) == b + Flatten(batches)
    decreases |batches|
  {
    if batches == [] {
      FlattenSnoc([], b);
      assert [b] + batches == [] + [b];
    } else {
      var init := batches[..|batches| - 1];
      var last := batches[|batches| - 1];
      FlattenCons(b, init);
      assert [b] + batches == ([b] + init) + [last];
      FlattenSnoc([b] + init, last);
      FlattenSnoc(init, last);
      assert batches == init + [last];
    }
  }

  /** The entries of two runs of groups are those of each run in turn. */
  lemma {:induction false} MakeEntriesAppend(yyyymmdd: string, a: seq<Quotes>, b: seq<Quotes>)
    ensures MakeEntries(yyyymmdd, a + b) == MakeEntries(yyyymmdd, a) + MakeEntries(yyyymmdd, b)
    decreases |b|
  {
    if b == [] {
      assert a + b == a;
    } else {
      var init := b[..|b| - 1];
      MakeEntriesAppend(yyyymmdd, a, init);
      assert (a + b)[..|a + b| - 1] == a + init;
      assert (a + b)[|a + b| - 1] == b[|b| - 1];
    }
  }

  /** The batches main sends for the entries `entries` when each of them
      completes: BatchSize entries at a time, and a last batch with the 1
      to BatchSize entries left. */
  function Batches(entries: seq<Entry>): (r: seq<seq<Entry>>)
    requires entries != []
    ensures |r| >= 1 && Flatten(r) == entries
    ensures FullBatches(r[..|r| - 1]) && 1 <= |r[|r| - 1]| <= BatchSize
    decreases |entries|
  {
    if |entries| <= BatchSize then
      FlattenSnoc([], entries);
      assert [] + [entries] == [entries];
      [entries]
    else
      var rest := Batches(entries[BatchSize..]);
      BatchesCons(entries[..BatchSize], entries[BatchSize..], rest);
      [entries[..BatchSize]] + rest
  }

  /** A full batch in front of the batches of the remaining entries. */
  lemma BatchesCons(b: seq<Entry>, more: seq<Entry>, rest: seq<seq<Entry>>)
    requires |b| == BatchSize && |rest| >= 1 && Flatten(rest) == more
    requires FullBatches(rest[..|rest| - 1]) && 1 <= |rest[|rest| - 1]| <= BatchSize
    ensures var r := [b] + rest;
      Flatten(r) == b + more && FullBatches(r[..|r| - 1]) && r[|r| - 1] == rest[|rest| - 1]
  {
    FlattenCons(b, rest);
    var r := [b] + rest;
    assert r[..|r| - 1] == [b] + rest[..|rest| - 1];
  }

  /** Full batches followed by more entries are the first batches main
      sends for all of them. */
  lemma {:induction false} BatchesPrefix(batches: seq<seq<Entry>>, rest: seq<Entry>)
    requires FullBatches(batches) && rest != []
    ensures |Batches(Flatten(batches) + rest)| > |batches|
    ensures Batches(Flatten(batches) + rest)[..|batches|] == batches
    decreases |batches|
  {
    if batches != [] {
      var b, tail := batches[0], batches[1..];
      assert batches == [b] + tail;
      FlattenCons(b, tail);
      BatchesPrefix(tail, rest);
      var entries := Flatten(batches) + rest;
      assert entries == b + (Flatten(tail) + rest);
      assert entries[..BatchSize] == b && entries[BatchSize..] == Flatten(tail) + rest;
    }
  }

  /** Batches that are full but for a last one of 1 to BatchSize entries
      are the batches main sends for their entries. */
  lemma {:induction false} BatchesUnique(batches: seq<seq<Entry>>)
    requires |batches| >= 1 && FullBatches(batches[..|batches| - 1]) && 1 <= |batches[|batches| - 1]| <= BatchSize
    ensures Flatten(batches) != [] && Batches(Flatten(batches)) == batches
    decreases |batches|
  {
    var b, tail := batches[0], batches[1..];
    assert batches == [b] + tail;
    FlattenCons(b, tail);
    if tail == [] {
      assert Flatten(tail) == [];
      assert Flatten(batches) == b;
    } else {
      assert tail[..|tail| - 1] == batches[1..|batches| - 1];
      BatchesUnique(tail);
      var entries := Flatten(batches);
      assert entries[..BatchSize] == b && entries[BatchSize..] == Flatten(tail);
    }
  }

  /** The batches main sends for the quotes qs when each of them completes. */
  function BatchesFor(yyyymmdd: string, qs: seq<Quote>): seq<seq<Entry>>
  {
    Batches(MakeEntries(yyyymmdd, AllGroups(qs)))
  }

  /** Every line parses and every batch main sends for the quotes completes:
      what main needs to exit with 0. */
  predicate UploadCompletes(lines: seq<string>, yyyymmdd: string, parse: LineParser,
                            respond: nat -> nat -> seq<ResponseEntry>)
  {
    ParseAll(lines, 1, parse).Ok? && AllCompleted(BatchesFor(yyyymmdd, ParseAll(lines, 1, parse).value), respond)
  }

  /** Grouping a prefix of the quotes closes a prefix of the groups. */
  lemma {:induction false} ClosedPrefix(qs: seq<Quote>, all: seq<Quote>)
    requires qs <= all
    ensures GroupByTicker(qs).closed <= GroupByTicker(all).closed
    decreases |all|
  {
    if qs != all {
      var init := all[..|all| - 1];
      assert qs <= init;
      ClosedPrefix(qs, init);
      var c, c' := GroupByTicker(init).closed, GroupByTicker(all).closed;
      assert c' == c || c' == c + [GroupByTicker(init).current];
      assert c <= c';
    }
  }

  function TableName(project: string, instance: string, table: string): string
  {
    "projects/" + project + "/instances/" + instance + "/tables/" + table
  }

  /** The lines read so far, followed by those still to be read from s
      within the budget, are all the lines the loop reads. */
  predicate Reading(read: seq<string>, s: InputStream, budget: nat, all: seq<string>, asWritten: bool)
  {
    s.Valid() && read + LinesRead(s, budget, asWritten) == all
  }

  /** The std::getline call of main's loop, with what it means for the
      lines the loop reads: in the corrected loop a failed getline ends
      them; otherwise the line read is the next one parsed. */
  method NextLine(s: InputStream, ghost read: seq<string>, budget: nat, ghost all: seq<string>, asWritten: bool)
    returns (next: InputStream, line: string)
    requires s.Good() && budget > 0 && Reading(read, s, budget, all, asWritten)
    ensures !asWritten && next.fail ==> read == all
    ensures asWritten || !next.fail ==> Reading(read + [line], next, budget - 1, all, asWritten)
  {
    next, line := GetLine(s, '\n').0, GetLine(s, '\n').1;
    if asWritten || !next.fail {
      ReadStep(read, s, budget, all, asWritten);
    } else {
      assert read + [] == read;
    }
  }

  /** The parser applied to the next line read, with what it means for the
      parse of all the lines read so far. */
  method ParseNext(lineno: int, ghost read: seq<string>, line: string, ghost qs: seq<Quote>, parse: LineParser)
    returns (r: Result<Quote, ParseError>)
    requires lineno == |read| + 1 && ParseAll(read, 1, parse) == Ok(qs)
    ensures r.Ok? ==> ParseAll(read + [line], 1, parse) == Ok(qs + [r.value])
    ensures r.Err? ==> ParseAll(read + [line], 1, parse).Err?
  {
    r := parse(lineno, line);
    ParseAllStep(read, line, qs, parse);
  }

  /** Every batch sent holds BatchSize entries. */
  predicate FullBatches(batches: seq<seq<Entry>>)
  {
    forall k :: 0 <= k < |batches| ==> |batches[k]| == BatchSize
  }

  /** Every batch sent was completed by its MutateRows calls. */
  predicate AllCompleted(batches: seq<seq<Entry>>, respond: nat -> nat -> seq<ResponseEntry>)
  {
    forall k :: 0 <= k < |batches| ==> Run(batches[k], respond(k), 0, InitialBackoffMs).outcome == Completed
  }

  /** The batches sent so far are full and hold the entries of the Quotes
      closed by the quotes qs, and the last of them was not completed. */
  predicate BatchFailed(batches: seq<seq<Entry>>, yyyymmdd: string, qs: seq<Quote>,
                        respond: nat -> nat -> seq<ResponseEntry>)
  {
    && |batches| >= 1
    && FullBatches(batches)
    && Flatten(batches) == MakeEntries(yyyymmdd, GroupByTicker(qs).closed)
    && Run(batches[|batches| - 1], respond(|batches| - 1), 0, InitialBackoffMs).outcome != Completed
  }

  /** A batch that failed in the loop is one of the batches main sends for
      all the quotes, so not all of those complete. */
  lemma FailedBatchOfAll(yyyymmdd: string, qs: seq<Quote>, all: seq<Quote>, batches: seq<seq<Entry>>,
                         respond: nat -> nat -> seq<ResponseEntry>)
    requires qs <= all && BatchFailed(batches, yyyymmdd, qs, respond)
    ensures !AllCompleted(BatchesFor(yyyymmdd, all), respond)
  {
    ClosedPrefix(qs, all);
    var closed := GroupByTicker(qs).closed;
    var groups := AllGroups(all);
    assert groups == closed + groups[|closed|..];
    MakeEntriesAppend(yyyymmdd, closed, groups[|closed|..]);
    BatchesPrefix(batches, MakeEntries(yyyymmdd, groups[|closed|..]));
    var k := |batches| - 1;
    assert BatchesFor(yyyymmdd, all)[k] == batches[k];
  }

  /** What main's loop keeps true of its upload state after the quotes qs:
      `quotes` is the current group, the entries sent and those pending in
      the request are those of the closed groups, the request holds fewer
      than BatchSize entries, and every batch sent was full and completed. */
  predicate Uploading(pending: seq<Entry>, yyyymmdd: string, quotes: Quotes, qs: seq<Quote>,
                      batches: seq<seq<Entry>>, respond: nat -> nat -> seq<ResponseEntry>)
  {
    && quotes == GroupByTicker(qs).current
    && Flatten(batches) + pending == MakeEntries(yyyymmdd, GroupByTicker(qs).closed)
    && |pending| < BatchSize
    && FullBatches(batches)
    && AllCompleted(batches, respond)
  }

  /** The grouping step of main's loop for one parsed quote: a change of
      ticker appends the current Quotes to the request (unless it is the
      initial empty one) and starts a new one; the quote's sample is then
      appended to the current Quotes. */
  method AddQuote(request: MutateRowsRequest, yyyymmdd: string, quotes: Quotes, q: Quote, ghost qs: seq<Quote>)
    returns (next: Quotes)
    modifies request
    requires quotes == GroupByTicker(qs).current
    ensures next == GroupByTicker(qs + [q]).current
    ensures request.entries == old(request.entries) + NewlyClosed(yyyymmdd, qs, q)
    ensures request.tableName == old(request.tableName)
  {
    GroupStep(yyyymmdd, qs, q);
    next := quotes;
    if quotes.ticker != q.ticker {
      if quotes.ticker != "" {
        request.AppendToRequest(yyyymmdd, quotes);
      }
      next := Quotes(q.ticker, []);
    }
    next := next.(samples := next.samples + [SampleOf(q)]);
  }

  /** One parsed quote through the rest of main's loop: grouped, and once
      the request holds BatchSize entries, sent; ok is false when a batch
      was not completed, which makes main return 1. */
  method UploadQuote(request: MutateRowsRequest, yyyymmdd: string, quotes: Quotes, q: Quote, ghost qs: seq<Quote>,
                     batches: seq<seq<Entry>>, respond: nat -> nat -> seq<ResponseEntry>)
    returns (next: Quotes, sent: seq<seq<Entry>>, ok: bool)
    modifies request
    requires Uploading(request.entries, yyyymmdd, quotes, qs, batches, respond)
    ensures ok ==> Uploading(request.entries, yyyymmdd, next, qs + [q], sent, respond)
    ensures !ok ==> BatchFailed(sent, yyyymmdd, qs + [q], respond)
  {
    PendingStep(yyyymmdd, Flatten(batches), request.entries, qs, q);
    next := AddQuote(request, yyyymmdd, quotes, q, qs);
    sent, ok := batches, true;
    if |request.entries| >= BatchSize {
      sent, ok := SendBatch(request, batches, respond);
    }
  }

  /** Sends the request's entries as the next batch with MutateWithRetries;
      ok tells whether they were all completed. */
  method SendBatch(request: MutateRowsRequest, batches: seq<seq<Entry>>, respond: nat -> nat -> seq<ResponseEntry>)
    returns (sent: seq<seq<Entry>>, ok: bool)
    modifies request
    requires AllCompleted(batches, respond)
    ensures sent == batches + [old(request.entries)]
    ensures Flatten(sent) == Flatten(batches) + old(request.entries)
    ensures ok <==> Run(old(request.entries), respond(|batches|), 0, InitialBackoffMs).outcome == Completed
    ensures ok ==> request.entries == [] && AllCompleted(sent, respond)
  {
    FlattenSnoc(batches, request.entries);
    sent := batches + [request.entries];
    var outcome, _ := request.MutateWithRetries(respond(|batches|));
    ok := outcome == Completed;
    if ok {
      CompletedClearsRequest(sent[|batches|], respond(|batches|), 0, InitialBackoffMs);
      assert forall k :: 0 <= k < |batches| ==> sent[k] == batches[k];
    }
  }

  /** A line read by main's loop: parsed, grouped and, once the request
      holds BatchSize entries, sent. ok is false when the line does not parse
      or a batch was not completed; either makes main return 1. */
  method ParseAndUpload(request: MutateRowsRequest, yyyymmdd: string, lineno: int, line: string, quotes: Quotes,
                        batches: seq<seq<Entry>>, ghost read: seq<string>, ghost qs: seq<Quote>,
                        parse: LineParser, respond: nat -> nat -> seq<ResponseEntry>)
    returns (next: Quotes, sent: seq<seq<Entry>>, ok: bool, q: Quote)
    modifies request
    requires lineno == |read| + 1 && ParseAll(read, 1, parse) == Ok(qs)
    requires Uploading(request.entries, yyyymmdd, quotes, qs, batches, respond)
    ensures ok ==> ParseAll(read + [line], 1, parse) == Ok(qs + [q])
    ensures ok ==> Uploading(request.entries, yyyymmdd, next, qs + [q], sent, respond)
    ensures !ok ==>
      || ParseAll(read + [line], 1, parse).Err?
      || (ParseAll(read + [line], 1, parse) == Ok(qs + [q]) && BatchFailed(sent, yyyymmdd, qs + [q], respond))
  {
    next, sent, ok, q := quotes, batches, false, Quote(0, "", "", 0, "", 0);
    var r := ParseNext(lineno, read, line, qs, parse);
    if r.Ok? {
      q := r.value;
      next, sent, ok := UploadQuote(request, yyyymmdd, quotes, q, qs, batches, respond);
    }
  }

  /** After the loop, main appends the current Quotes to the request and
      sends it as the last batch; ok is false when it was not completed. */
  method UploadLastBatch(request: MutateRowsRequest, yyyymmdd: string, quotes: Quotes, ghost qs: seq<Quote>,
                         batches: seq<seq<Entry>>, respond: nat -> nat -> seq<ResponseEntry>)
    returns (sent: seq<seq<Entry>>, ok: bool)
    modifies request
    requires Uploading(request.entries, yyyymmdd, quotes, qs, batches, respond)
    ensures ok ==> Flatten(sent) == MakeEntries(yyyymmdd, AllGroups(qs))
    ensures ok ==> |sent| >= 1 && 1 <= |sent[|sent| - 1]| <= BatchSize
    ensures ok ==> FullBatches(sent[..|sent| - 1]) && AllCompleted(sent, respond)
    ensures sent == BatchesFor(yyyymmdd, qs)
    ensures ok <==> AllCompleted(sent, respond)
  {
    ghost var pending := request.entries;
    request.AppendToRequest(yyyymmdd, quotes);
    AllGroupsEntries(yyyymmdd, qs);
    assert Flatten(batches) + (pending + [MakeEntry(yyyymmdd, quotes)]) == (Flatten(batches) + pending) + [MakeEntry(yyyymmdd, quotes)];
    sent, ok := SendBatch(request, batches, respond);
    assert sent[..|sent| - 1] == batches;
    BatchesUnique(sent);
  }

  /** The loop of main over the data lines of the stream s0 (the file after
      its header). With asWritten the loop tests the stream only before
      getline, as main does; otherwise it also stops when getline fails.
      ok is false when a line does not parse or a batch is not completed;
      otherwise every line read has been parsed and grouped. */
  method ReadAndUpload(request: MutateRowsRequest, yyyymmdd: string, s0: InputStream, ghost lines: seq<string>,
                       parse: LineParser, respond: nat -> nat -> seq<ResponseEntry>, asWritten: bool)
    returns (ok: bool, quotes: Quotes, ghost qs: seq<Quote>, batches: seq<seq<Entry>>)
    modifies request
    requires s0.Valid() && request.entries == [] && lines == LinesRead(s0, MaxLinesToUpload - 1, asWritten)
    ensures ok ==> ParseAll(lines, 1, parse) == Ok(qs) && Uploading(request.entries, yyyymmdd, quotes, qs, batches, respond)
    ensures !ok ==>
      || ParseAll(lines, 1, parse).Err?
      || (qs <= ParseAll(lines, 1, parse).value && BatchFailed(batches, yyyymmdd, qs, respond))
  {
    batches := [];
    var s := s0;
    quotes := Quotes("", []);
    ghost var all := lines;
    ghost var read: seq<string> := [];
    qs := [];
    var budget: nat := MaxLinesToUpload - 1;
    assert Reading(read, s, budget, all, asWritten);
    var lineno := 1;
    ghost var stopped := false;
    while lineno != MaxLinesToUpload && s.Good()
      invariant !stopped
      invariant 1 <= lineno <= MaxLinesToUpload
      invariant |read| == lineno - 1
      invariant budget == MaxLinesToUpload - lineno && Reading(read, s, budget, all, asWritten)
      invariant ParseAll(read, 1, parse) == Ok(qs)
      invariant Uploading(request.entries, yyyymmdd, quotes, qs, batches, respond)
      decreases MaxLinesToUpload - lineno
    {
      var s', line := NextLine(s, read, budget, all, asWritten);
      if !asWritten && s'.fail {
        stopped := true;
        break;
      }
      var q;
      quotes, batches, ok, q := ParseAndUpload(request, yyyymmdd, lineno, line, quotes, batches, read, qs, parse, respond);
      if !ok {
        ParsePrefix(read + [line], LinesRead(s', budget - 1, asWritten), parse);
        qs := qs + [q];
        return;
      }
      s, read, qs, budget := s', read + [line], qs + [q], budget - 1;
      lineno := lineno + 1;
    }
    if !stopped {
      ReadToEnd(read, s, budget, all, asWritten);
    }
    ok := true;
  }

  /** The loop of main over the data lines of the stream s0, then the upload
      of the last batch after it. */
  method UploadLines(request: MutateRowsRequest, yyyymmdd: string, s0: InputStream, ghost lines: seq<string>,
                     parse: LineParser, respond: nat -> nat -> seq<ResponseEntry>, asWritten: bool)
    returns (exitCode: int, batches: seq<seq<Entry>>)
    modifies request
    requires s0.Valid() && request.entries == [] && lines == LinesRead(s0, MaxLinesToUpload - 1, asWritten)
    ensures exitCode == 0 || exitCode == 1
    ensures exitCode == 0 <==> UploadCompletes(lines, yyyymmdd, parse, respond)
    ensures exitCode == 0 ==> batches == BatchesFor(yyyymmdd, ParseAll(lines, 1, parse).value)
  {
    var ok, quotes;
    ghost var qs;
    ok, quotes, qs, batches := ReadAndUpload(request, yyyymmdd, s0, lines, parse, respond, asWritten);
    if !ok {
      if ParseAll(lines, 1, parse).Ok? {
        FailedBatchOfAll(yyyymmdd, qs, ParseAll(lines, 1, parse).value, batches, respond);
      }
      return 1, batches;
    }
    // ... the last batch needs to be uploaded too ...
    batches, ok := UploadLastBatch(request, yyyymmdd, quotes, qs, batches, respond);
    exitCode := if ok then 0 else 1;
  }

  /** main: argv holds the program name and five arguments (project,
      instance, table, yyyymmdd, file name); `file` is the content of the
      file, None when it cannot be opened; respond(b)(i) is the server's
      response to the i-th MutateRows call for the b-th batch. The batches
      sent are returned with the exit code. With asWritten the lines are
      read as main reads them, so a file ending in a newline fails (see
      TrailingNewlineFailsUpload); otherwise the loop stops at the first
      getline that fails. */
  method UploadTaqBatch(argv: seq<string>, file: Option<string>, respond: nat -> nat -> seq<ResponseEntry>, asWritten: bool)
    returns (exitCode: int, batches: seq<seq<Entry>>)
    ensures exitCode == 0 || exitCode == 1
    ensures |argv| != 6 ==> exitCode == 1 && batches == []
    ensures exitCode == 0 <==> |argv| == 6 && UploadCompletes(FileLines(file, asWritten), argv[4], ParseTaqLine, respond)
    ensures exitCode == 0 ==> batches == BatchesFor(argv[4], ParseAll(FileLines(file, asWritten), 1, ParseTaqLine).value)
  {
    batches := [];
    if |argv| != 6 {
      exitCode := 1;
      return;
    }
    var request := new MutateRowsRequest(TableName(argv[1], argv[2], argv[3]));
    // ... skip the header line ...
    exitCode, batches := UploadLines(request, argv[4], AfterHeader(file), FileLines(file, asWritten), ParseTaqLine, respond, asWritten);
  }
}
