/** read_rows: the rows "<date>/A" and "<date>/AA" are read back from the
    table upload_taq_batch fills, and the cell chunks of the ReadRows stream
    are reassembled into Quotes values. The stream is an oracle (the
    responses, each a sequence of chunks) and so is the protobuf parser,
    which is given the reassembled bytes and answers how many bid and offer
    prices the Quotes message holds. */
module ReadRows {
  import opened Wrappers

  /** A CellChunk of a ReadRowsResponse, with the wrapper fields family_name
      and qualifier as options. */
  datatype Chunk = Chunk(
    rowKey: string, familyName: Option<string>, qualifier: Option<string>,
    timestampMicros: int, value: string, commitRow: bool, resetRow: bool)

  /** The four strings main keeps between chunks. */
  datatype RowState = RowState(rowKey: string, family: string, column: string, value: string)

  const Initial: RowState := RowState("", "", "", "")

  /** The runtime_error thrown for an unexpected chunk. */
  datatype ReadError = UnexpectedFamily | UnexpectedColumn | UnexpectedTimestamp

  /** The sizes of the repeated bid_px and offer_px fields of a parsed Quotes
      message. */
  datatype QuoteCounts = QuoteCounts(bids: nat, offers: nat)

  /** Quotes::ParseFromString, which is not part of this model. */
  type QuotesParser = string -> Option<QuoteCounts>

  /** What main prints for a committed row. The average spread itself is
      floating point and is not modelled; the count is. */
  datatype Report =
    | ParseFailed(rowKey: string)
    | MismatchedSizes(rowKey: string, bids: nat, offers: nat)
    | AverageSpread(rowKey: string, count: nat)

  /** The ReadRowsRequest main sends. */
  datatype Filter = FamilyNameRegex(regex: string) | ColumnQualifierRegex(regex: string)
  datatype ReadRowsRequest = ReadRowsRequest(tableName: string, chain: seq<Filter>, rowKeys: seq<string>)

  function MakeRequest(project: string, instance: string, table: string, yyyymmdd: string): (r: ReadRowsRequest)
    ensures r.chain == [FamilyNameRegex("taq"), ColumnQualifierRegex("quotes")]
    ensures r.rowKeys == [yyyymmdd + "/A", yyyymmdd + "/AA"] && r.rowKeys[0] != r.rowKeys[1]
  {
    ReadRowsRequest("projects/" + project + "/instances/" + instance + "/tables/" + table,
      [FamilyNameRegex("taq"), ColumnQualifierRegex("quotes")],
      [yyyymmdd + "/A", yyyymmdd + "/AA"])
  }

  /** The report for a committed row: a value that does not parse, bid and
      offer counts that differ or are zero, or the average spread over the
      quotes. None of them stops the reading. */
  function Classify(rowKey: string, value: string, parse: QuotesParser): (r: Report)
    ensures r.rowKey == rowKey
    ensures r.ParseFailed? <==> parse(value).None?
    ensures r.AverageSpread? <==> parse(value).Some? && parse(value).value.bids == parse(value).value.offers > 0
    ensures r.AverageSpread? ==> r.count == parse(value).value.offers
  {
    match parse(value)
    case None => ParseFailed(rowKey)
    case Some(q) =>
      if q.bids != q.offers || q.bids == 0 then MismatchedSizes(rowKey, q.bids, q.offers)
      else AverageSpread(rowKey, q.offers)
  }

  /** The checks a chunk goes through, in order; None when it passes them. */
  function Check(c: Chunk): (e: Option<ReadError>)
    ensures e.None? <==> (c.familyName.Some? ==> c.familyName.value == "taq")
                         && (c.qualifier.Some? ==> c.qualifier.value == "quotes")
                         && c.timestampMicros == 0
    ensures e == Some(UnexpectedColumn) ==> c.familyName.Some? ==> c.familyName.value == "taq"
    ensures e == Some(UnexpectedTimestamp) ==>
      (c.familyName.Some? ==> c.familyName.value == "taq") && (c.qualifier.Some? ==> c.qualifier.value == "quotes")
  {
    if c.familyName.Some? && c.familyName.value != "taq" then Some(UnexpectedFamily)
    else if c.qualifier.Some? && c.qualifier.value != "quotes" then Some(UnexpectedColumn)
    else if c.timestampMicros != 0 then Some(UnexpectedTimestamp)
    else None
  }

  /** The key of the row a chunk belongs to: its own when it has one, else
      the previous chunk's. */
  function KeyAfter(st: RowState, c: Chunk): string
  {
    if c.rowKey != "" then c.rowKey else st.rowKey
  }

  /** One chunk, as main's loop body handles it: the key is replaced when the
      chunk carries one, the wrapper fields are checked, the value is
      appended to the buffer, a committed row is parsed and reported, and a
      reset clears the buffer. A commit does not clear the buffer. */
  function StepAsWritten(st: RowState, c: Chunk, parse: QuotesParser): (r: Result<(RowState, Option<Report>), ReadError>)
    ensures r.Err? <==> Check(c).Some?
    ensures r.Err? ==> r.error == Check(c).value
    ensures r.Ok? ==> r.value.0.rowKey == KeyAfter(st, c)
    ensures r.Ok? ==> r.value.0.value == if c.resetRow then "" else st.value + c.value
    ensures r.Ok? ==> r.value.1 == if c.commitRow then Some(Classify(KeyAfter(st, c), st.value + c.value, parse)) else None
  {
    match Check(c)
    case Some(e) => Err(e)
    case None =>
      var key := KeyAfter(st, c);
      var family := if c.familyName.Some? then c.familyName.value else st.family;
      var column := if c.qualifier.Some? then c.qualifier.value else st.column;
      var value := st.value + c.value;
      var report := if c.commitRow then Some(Classify(key, value, parse)) else None;
      Ok((RowState(key, family, column, if c.resetRow then "" else value), report))
  }

  /** One chunk with the buffer cleared once a committed row has been
      handled, so that the next row starts from an empty buffer. */
  function Step(st: RowState, c: Chunk, parse: QuotesParser): (r: Result<(RowState, Option<Report>), ReadError>)
    ensures r.Err? <==> StepAsWritten(st, c, parse).Err?
    ensures r.Ok? ==> r.value.1 == StepAsWritten(st, c, parse).value.1
    ensures r.Ok? ==> r.value.0 == StepAsWritten(st, c, parse).value.0.(value := if c.commitRow then "" else StepAsWritten(st, c, parse).value.0.value)
  {
    match StepAsWritten(st, c, parse)
    case Err(e) => Err(e)
    case Ok((next, report)) => Ok((if c.commitRow then next.(value := "") else next, report))
  }

  /** Where a run of chunks leaves main: the strings, the reports printed so
      far and the exception that ended it, if any. */
  datatype Outcome = Outcome(state: RowState, reports: seq<Report>, error: Option<ReadError>)

  /** The chunks of the whole stream handled in order from the initial state,
      stopping at the first exception; clearOnCommit selects Step over
      StepAsWritten. */
  function Run(cs: seq<Chunk>, parse: QuotesParser, clearOnCommit: bool): Outcome
  {
    if cs == [] then Outcome(Initial, [], None)
    else
      var o := Run(cs[..|cs| - 1], parse, clearOnCommit);
      if o.error.Some? then o
      else
        var c := cs[|cs| - 1];
        match (if clearOnCommit then Step(o.state, c, parse) else StepAsWritten(o.state, c, parse))
        case Err(e) => o.(error := Some(e))
        case Ok((next, report)) =>
          Outcome(next, o.reports + (if report.Some? then [report.value] else []), None)
  }

  /** The row key in force after a run: the last non-empty chunk key. */
  function LastKey(cs: seq<Chunk>): string
  {
    if cs == [] then ""
    else if cs[|cs| - 1].rowKey != "" then cs[|cs| - 1].rowKey
    else LastKey(cs[..|cs| - 1])
  }

  /** The values appended since the last chunk that cleared the buffer: a
      reset, or also a commit when clearOnCommit. */
  function Pending(cs: seq<Chunk>, clearOnCommit: bool): string
  {
    if cs == [] then ""
    else
      var c := cs[|cs| - 1];
      if c.resetRow || (clearOnCommit && c.commitRow) then ""
      else Pending(cs[..|cs| - 1], clearOnCommit) + c.value
  }

  /** Every chunk passes its checks. */
  predicate AllAccepted(cs: seq<Chunk>)
  {
    forall k :: 0 <= k < |cs| ==> Check(cs[k]).None?
  }

  function Commits(cs: seq<Chunk>): nat
  {
    if cs == [] then 0 else Commits(cs[..|cs| - 1]) + (if cs[|cs| - 1].commitRow then 1 else 0)
  }

  /** While no exception is thrown, the key in force is the last non-empty
      key and the buffer holds what was appended since it was last cleared;
      one report is printed per committed row. */
  lemma {:induction false} RunState(cs: seq<Chunk>, parse: QuotesParser, clearOnCommit: bool)
    requires Run(cs, parse, clearOnCommit).error.None?
    ensures Run(cs, parse, clearOnCommit).state.rowKey == LastKey(cs)
    ensures Run(cs, parse, clearOnCommit).state.value == Pending(cs, clearOnCommit)
    ensures |Run(cs, parse, clearOnCommit).reports| == Commits(cs)
  {
    if cs != [] {
      RunState(cs[..|cs| - 1], parse, clearOnCommit);
    }
  }

  /** A run throws exactly when some chunk fails its checks, and the error
      is that of the first such chunk. */
  lemma {:induction false} RunError(cs: seq<Chunk>, parse: QuotesParser, clearOnCommit: bool)
    ensures Run(cs, parse, clearOnCommit).error.None? <==> AllAccepted(cs)
    ensures Run(cs, parse, clearOnCommit).error.Some? ==>
      exists k :: 0 <= k < |cs| && AllAccepted(cs[..k]) && Run(cs, parse, clearOnCommit).error == Check(cs[k])
  {
    if cs != [] {
      var init := cs[..|cs| - 1];
      RunError(init, parse, clearOnCommit);
      if Run(init, parse, clearOnCommit).error.Some? {
        var k :| 0 <= k < |init| && AllAccepted(init[..k]) && Run(init, parse, clearOnCommit).error == Check(init[k]);
        assert init[..k] == cs[..k];
        assert !AllAccepted(cs) by { assert Check(cs[k]).Some?; }
      } else {
        assert cs[..|cs| - 1] == init;
        if Check(cs[|cs| - 1]).None? {
          assert AllAccepted(cs) by {
            forall k | 0 <= k < |cs| ensures Check(cs[k]).None? {
              if k < |init| { assert cs[k] == init[k]; }
            }
          }
        } else {
          assert AllAccepted(cs[..|cs| - 1]);
        }
      }
    }
  }

  /** A committed chunk prints the report for the key in force and the
      buffer with its own value appended. */
  lemma CommitReport(cs: seq<Chunk>, c: Chunk, parse: QuotesParser, clearOnCommit: bool)
    requires Run(cs + [c], parse, clearOnCommit).error.None? && c.commitRow
    ensures Run(cs + [c], parse, clearOnCommit).reports
      == Run(cs, parse, clearOnCommit).reports + [Classify(LastKey(cs + [c]), Pending(cs, clearOnCommit) + c.value, parse)]
  {
    assert (cs + [c])[..|cs|] == cs;
    RunState(cs, parse, clearOnCommit);
    assert LastKey(cs + [c]) == if c.rowKey != "" then c.rowKey else LastKey(cs);
  }

  /** With the buffer cleared on commit, a row whose chunks follow a commit
      is parsed from its own values only. */
  lemma RowParsedFromOwnValues(cs: seq<Chunk>, row: seq<Chunk>, c: Chunk, parse: QuotesParser)
    requires cs != [] && cs[|cs| - 1].commitRow
    requires forall k :: 0 <= k < |row| ==> !row[k].commitRow && !row[k].resetRow
    requires Run(cs + row + [c], parse, true).error.None? && c.commitRow
    ensures Run(cs + row + [c], parse, true).reports
      == Run(cs + row, parse, true).reports + [Classify(LastKey(cs + row + [c]), Values(row) + c.value, parse)]
  {
    CommitReport(cs + row, c, parse, true);
    PendingAfterCommit(cs, row);
  }

  function Values(row: seq<Chunk>): string
  {
    if row == [] then "" else Values(row[..|row| - 1]) + row[|row| - 1].value
  }

  lemma {:induction false} PendingAfterCommit(cs: seq<Chunk>, row: seq<Chunk>)
    requires cs != [] && cs[|cs| - 1].commitRow
    requires forall k :: 0 <= k < |row| ==> !row[k].commitRow && !row[k].resetRow
    ensures Pending(cs + row, true) == Values(row)
  {
    if row == [] {
      assert cs + row == cs;
    } else {
      var init := row[..|row| - 1];
      PendingAfterCommit(cs, init);
      assert (cs + row)[..|cs + row| - 1] == cs + init;
    }
  }

  /** As written, two rows of one committed chunk each: the second row's
      report comes from the first row's value followed by its own, where
      the corrected step parses its own value alone. Protobuf's
      ParseFromString merges concatenated messages, so as written the
      second row's report counts the first row's quotes as well. */
  lemma CommitKeepsPreviousRow(first: string, second: string, parse: QuotesParser)
    ensures var cs := [Chunk("20170915/A", Some("taq"), Some("quotes"), 0, first, true, false),
                       Chunk("20170915/AA", Some("taq"), Some("quotes"), 0, second, true, false)];
      Run(cs, parse, false).reports
        == [Classify("20170915/A", first, parse), Classify("20170915/AA", first + second, parse)]
      && Run(cs, parse, true).reports
        == [Classify("20170915/A", first, parse), Classify("20170915/AA", second, parse)]
  {
    var c1 := Chunk("20170915/A", Some("taq"), Some("quotes"), 0, first, true, false);
    var c2 := Chunk("20170915/AA", Some("taq"), Some("quotes"), 0, second, true, false);
    assert [c1, c2][..1] == [c1];
    assert [c1][..0] == [];
    assert "" + first == first && "" + second == second;
    forall clear: bool
      ensures Run([c1], parse, clear).reports == [Classify("20170915/A", first, parse)]
      ensures Run([c1], parse, clear).state.value == (if clear then "" else first)
      ensures Run([c1], parse, clear).error.None?
    {
      assert Run([c1], parse, clear).state.rowKey == "20170915/A";
    }
  }

  /** The chunks of the responses, in stream order. */
  function Chunks(stream: seq<seq<Chunk>>): seq<Chunk>
  {
    if stream == [] then [] else Chunks(stream[..|stream| - 1]) + stream[|stream| - 1]
  }

  /** main: the argument count check, the request, then every chunk of
      every response, until the stream ends or an exception is thrown. */
  method ReadRowsMain(argv: seq<string>, stream: seq<seq<Chunk>>, parse: QuotesParser, clearOnCommit: bool)
    returns (exitCode: int, request: Option<ReadRowsRequest>, reports: seq<Report>)
    ensures |argv| != 5 ==> exitCode == 1 && request.None? && reports == []
    ensures |argv| == 5 ==> request == Some(MakeRequest(argv[1], argv[2], argv[3], argv[4]))
    ensures |argv| == 5 ==> reports == Run(Chunks(stream), parse, clearOnCommit).reports
    ensures |argv| == 5 ==> (exitCode == 0 <==> Run(Chunks(stream), parse, clearOnCommit).error.None?)
    ensures exitCode == 0 || exitCode == 1
  {
    if |argv| != 5 {
      return 1, None, [];
    }
    request := Some(MakeRequest(argv[1], argv[2], argv[3], argv[4]));
    var st := Initial;
    reports := [];
    var i := 0;
    while i < |stream|
      invariant 0 <= i <= |stream|
      invariant Run(Chunks(stream[..i]), parse, clearOnCommit) == Outcome(st, reports, None)
    {
      var ok;
      st, reports, ok := ReadResponse(st, reports, Chunks(stream[..i]), stream[i], parse, clearOnCommit);
      assert !ok ==> Run(Chunks(stream[..i]) + stream[i], parse, clearOnCommit).error.Some?;
      if !ok {
        ErrorPersists(stream, i, parse, clearOnCommit);
        return 1, request, reports;
      }
      NextResponse(stream, i);
      i := i + 1;
    }
    assert stream[..i] == stream;
    exitCode := 0;
  }

  /** The chunks of one response, handled in order. */
  method ReadResponse(st: RowState, reports: seq<Report>, ghost done: seq<Chunk>, chunks: seq<Chunk>, parse: QuotesParser,
                      clearOnCommit: bool)
    returns (st': RowState, reports': seq<Report>, ok: bool)
    requires Reached(done, parse, clearOnCommit, st, reports)
    ensures ok ==> Reached(done + chunks, parse, clearOnCommit, st', reports')
    ensures !ok ==> Failed(done + chunks, parse, clearOnCommit, reports')
  {
    st', reports' := st, reports;
    var j := 0;
    ghost var prefix := done;
    assert done + chunks[..0] == done;
    while j < |chunks|
      invariant 0 <= j <= |chunks| && prefix == done + chunks[..j]
      invariant Reached(prefix, parse, clearOnCommit, st', reports')
    {
      st', reports', ok := HandleChunk(st', reports', prefix, chunks[j], parse, clearOnCommit);
      PrefixStep(done, chunks, j);
      if !ok {
        FailedRest(done, chunks, j, parse, clearOnCommit, reports');
        return;
      }
      prefix := prefix + [chunks[j]];
      j := j + 1;
    }
    assert chunks[..j] == chunks;
    ok := true;
  }

  /** Run reaches the given state with no exception. */
  predicate Reached(cs: seq<Chunk>, parse: QuotesParser, clearOnCommit: bool, st: RowState, reports: seq<Report>)
  {
    Run(cs, parse, clearOnCommit) == Outcome(st, reports, None)
  }

  /** Run ends in an exception after printing the given reports. */
  predicate Failed(cs: seq<Chunk>, parse: QuotesParser, clearOnCommit: bool, reports: seq<Report>)
  {
    Run(cs, parse, clearOnCommit).error.Some? && Run(cs, parse, clearOnCommit).reports == reports
  }

  lemma PrefixStep(done: seq<Chunk>, chunks: seq<Chunk>, j: nat)
    requires j < |chunks|
    ensures done + chunks[..j] + [chunks[j]] == done + chunks[..j + 1]
  {
  }

  lemma FailedRest(done: seq<Chunk>, chunks: seq<Chunk>, j: nat, parse: QuotesParser, clearOnCommit: bool, reports: seq<Report>)
    requires j < |chunks| && Failed(done + chunks[..j + 1], parse, clearOnCommit, reports)
    ensures Failed(done + chunks, parse, clearOnCommit, reports)
  {
    ErrorSticky(done + chunks[..j + 1], chunks[j + 1..], parse, clearOnCommit);
    assert done + chunks[..j + 1] + chunks[j + 1..] == done + chunks;
  }

  /** The body of the inner loop: one chunk. */
  method HandleChunk(st: RowState, reports: seq<Report>, ghost done: seq<Chunk>, c: Chunk, parse: QuotesParser,
                     clearOnCommit: bool)
    returns (st': RowState, reports': seq<Report>, ok: bool)
    requires Reached(done, parse, clearOnCommit, st, reports)
    ensures ok ==> Reached(done + [c], parse, clearOnCommit, st', reports')
    ensures !ok ==> Failed(done + [c], parse, clearOnCommit, reports')
  {
    assert (done + [c])[..|done|] == done;
    var r := if clearOnCommit then Step(st, c, parse) else StepAsWritten(st, c, parse);
    if r.Err? {
      return st, reports, false;
    }
    st', ok := r.value.0, true;
    reports' := if r.value.1.Some? then reports + [r.value.1.value] else reports;
  }

  lemma NextResponse(stream: seq<seq<Chunk>>, i: nat)
    requires i < |stream|
    ensures Chunks(stream[..i + 1]) == Chunks(stream[..i]) + stream[i]
  {
    assert stream[..i + 1] == stream[..i] + [stream[i]];
    ChunksSnoc(stream[..i], stream[i]);
  }

  /** Once an exception is thrown, the rest of the stream changes nothing. */
  lemma ErrorPersists(stream: seq<seq<Chunk>>, i: nat, parse: QuotesParser, clearOnCommit: bool)
    requires i < |stream|
    requires Run(Chunks(stream[..i]) + stream[i], parse, clearOnCommit).error.Some?
    ensures Run(Chunks(stream), parse, clearOnCommit) == Run(Chunks(stream[..i]) + stream[i], parse, clearOnCommit)
  {
    ChunksSplit(stream, i);
    ErrorSticky(Chunks(stream[..i]) + stream[i], Chunks(stream[i + 1..]), parse, clearOnCommit);
  }

  lemma {:induction false} ChunksSplit(stream: seq<seq<Chunk>>, i: nat)
    requires i < |stream|
    ensures Chunks(stream) == Chunks(stream[..i]) + stream[i] + Chunks(stream[i + 1..])
    decreases |stream|
  {
    if i < |stream| - 1 {
      var init := stream[..|stream| - 1];
      ChunksSplit(init, i);
      assert init[..i] == stream[..i] && init[i] == stream[i];
      assert stream[i + 1..] == init[i + 1..] + [stream[|stream| - 1]];
      ChunksSnoc(init[i + 1..], stream[|stream| - 1]);
    } else {
      assert stream[..i] == stream[..|stream| - 1];
      assert stream[i + 1..] == [];
    }
  }

  lemma ChunksSnoc(stream: seq<seq<Chunk>>, cs: seq<Chunk>)
    ensures Chunks(stream + [cs]) == Chunks(stream) + cs
  {
    assert (stream + [cs])[..|stream|] == stream;
  }

  lemma {:induction false} ErrorSticky(done: seq<Chunk>, rest: seq<Chunk>, parse: QuotesParser, clearOnCommit: bool)
    requires Run(done, parse, clearOnCommit).error.Some?
    ensures Run(done + rest, parse, clearOnCommit) == Run(done, parse, clearOnCommit)
    decreases |rest|
  {
    if rest == [] {
      assert done + rest == done;
    } else {
      var init := rest[..|rest| - 1];
      ErrorSticky(done, init, parse, clearOnCommit);
      assert (done + rest)[..|done + rest| - 1] == done + init;
    }
  }
}
