/** parse_taq_line: one '|'-separated line of a NYSE TAQ quotes file turned
    into a Quote. The fields are read one after another with std::getline from
    an std::istringstream whose failbit raises an exception, so a missing field
    fails the parse. Prices are kept as the text of the field (the program
    converts them with std::stod, which is floating point). */
module TaqLine {
  import opened Wrappers
  import opened Text
  import opened Streams

  datatype Quote = Quote(timestampNs: int, ticker: string, bidPx: string, bidQty: int, offerPx: string, offerQty: int)

  /** What went wrong, as the exception that parse_taq_line catches. */
  datatype Reason =
    | TimestampFormat(field: string)
    | StreamFailure
    | ConversionFailure(conversion: string, error: ConversionError)

  /** The runtime_error parse_taq_line rethrows: the original reason, the line
      number and the whole line. */
  datatype ParseError = ParseError(reason: Reason, lineno: int, line: string)

  const NanosPerSecond: int := 1_000_000_000

  /** The what() text of each reason; the library exceptions carry the texts
      of libstdc++. */
  function What(r: Reason): string
  {
    match r
    case TimestampFormat(tk) => "timestamp field (" + tk + ") is not in HHMMSSNNNNNNNNN format"
    case StreamFailure => "basic_ios::clear: iostream error"
    case ConversionFailure(f, _) => f
  }

  /** The message of the rethrown exception. */
  function Message(e: ParseError): (m: string)
    ensures |m| > |What(e.reason)| && m[..|What(e.reason)|] == What(e.reason)
  {
    What(e.reason) + " in line #" + IntToDecimal(e.lineno) + " (" + e.line + ")"
  }

  /** Whether std::stod performs a conversion: after white space and an
      optional sign there must be a digit, a '.' followed by a digit, or the
      words "inf" or "nan" in any case. */
  predicate StodAccepts(s: string)
  {
    var t := s[LeadingSpaces(s)..];
    var u := if |t| > 0 && (t[0] == '-' || t[0] == '+') then t[1..] else t;
    (|u| > 0 && IsDigit(u[0]))
    || (|u| > 1 && u[0] == '.' && IsDigit(u[1]))
    || (|u| >= 3 && ToLower(u[..3]) in {"inf", "nan"})
  }

  /** `int x = std::stod(f)` for the two-character hour, minute and second
      fields: the number truncated toward zero. A two-character field has no
      room for an exponent, a hexadecimal digit after "0x", "inf" or "nan", so
      the integer part of the leading number is the value. */
  function TwoCharStod(f: string): (r: Option<int>)
    requires |f| == 2
    ensures r.Some? <==> StodAccepts(f)
  {
    match ParseLeadingInteger(f)
    case Some(v) => Some(v)
    case None => if StodAccepts(f) then Some(0) else None
  }

  /** The HHMMSSNNNNNNNNN field: hours, minutes and seconds through std::stod
      (truncated to int), the nanoseconds through std::stoll. */
  function ParseTimestamp(tk: string): (r: Result<int, Reason>)
    requires |tk| == 15
  {
    var hh := TwoCharStod(tk[0..2]);
    var mm := TwoCharStod(tk[2..4]);
    var ss := TwoCharStod(tk[4..6]);
    if hh.None? || mm.None? || ss.None? then Err(ConversionFailure("stod", InvalidArgument))
    else match StringToInteger(tk[6..], INT64_MIN, INT64_MAX)
    case Err(e) => Err(ConversionFailure("stoll", e))
    case Ok(nnn) => Ok(Nanoseconds(hh.value, mm.value, ss.value, nnn))
  }

  /** ((hh * 60 + mm) * 60 + ss) * 10^9 + nnn, as parse_taq_line combines the
      parts of the timestamp. */
  function Nanoseconds(hh: int, mm: int, ss: int, nnn: int): int
  {
    ((hh * 60 + mm) * 60 + ss) * NanosPerSecond + nnn
  }

  /** A price field (std::stod) followed by a size field (std::stol), as the
      bid and the offer are read. */
  function ParsePriceSize(s: InputStream): (r: Result<(InputStream, string, int), Reason>)
    requires s.Valid()
    ensures r.Ok? ==> r.value.0.Valid() && r.value.0.data == s.data
  {
    var (s1, px) := GetLine(s, '|');
    if s1.fail then Err(StreamFailure)
    else if !StodAccepts(px) then Err(ConversionFailure("stod", InvalidArgument))
    else
      var (s2, qty) := GetLine(s1, '|');
      if s2.fail then Err(StreamFailure)
      else match StringToInteger(qty, INT64_MIN, INT64_MAX)
      case Err(e) => Err(ConversionFailure("stol", e))
      case Ok(n) => Ok((s2, px, n))
  }

  /** The parse proper; ParseTaqLine wraps its failures with the line. */
  function ParseFields(line: string): (r: Result<Quote, Reason>)
    ensures var (_, tk) := GetLine(Open(line), '|');
            line != [] && |tk| != 15 ==> r == Err(TimestampFormat(tk))
    ensures line == [] ==> r == Err(StreamFailure)
  {
    var (s1, tk) := GetLine(Open(line), '|');
    if s1.fail then Err(StreamFailure)
    else if |tk| != 15 then Err(TimestampFormat(tk))
    else match ParseTimestamp(tk)
    case Err(e) => Err(e)
    case Ok(ns) => ParseAfterTimestamp(s1, ns)
  }

  /** The fields after the timestamp: the exchange (read and dropped), the
      ticker, then the bid and the offer. */
  function ParseAfterTimestamp(s1: InputStream, ns: int): (r: Result<Quote, Reason>)
    requires s1.Valid()
    ensures r.Ok? ==> r.value.timestampNs == ns
  {
    var (s2, _) := GetLine(s1, '|');
    var (s3, ticker) := GetLine(s2, '|');
    if s2.fail || s3.fail then Err(StreamFailure)
    else match ParsePriceSize(s3)
    case Err(e) => Err(e)
    case Ok((s4, bidPx, bidQty)) =>
      match ParsePriceSize(s4)
      case Err(e) => Err(e)
      case Ok((_, offerPx, offerQty)) => Ok(Quote(ns, ticker, bidPx, bidQty, offerPx, offerQty))
  }

  /** parse_taq_line(lineno, line): every failure is reported together with
      the line number and the line. */
  function ParseTaqLine(lineno: int, line: string): (r: Result<Quote, ParseError>)
    ensures r.Err? ==> r.error.lineno == lineno && r.error.line == line
    ensures r.Err? <==> ParseFields(line).Err?
    ensures r.Err? ==> r.error.reason == ParseFields(line).error
  {
    match ParseFields(line)
    case Ok(q) => Ok(q)
    case Err(reason) => Err(ParseError(reason, lineno, line))
  }

  /** Fields separated by '|', as a TAQ line is written. */
  function JoinFields(fs: seq<string>): string
    requires |fs| >= 1
  {
    if |fs| == 1 then fs[0] else fs[0] + "|" + JoinFields(fs[1..])
  }

  /** A well-formed line: a 15-digit timestamp, then the exchange, the ticker,
      the bid price and size and the offer price and size, then any further
      fields, which the parser ignores. */
  function FormatLine(tk: string, exchange: string, q: Quote, extra: seq<string>): string
  {
    JoinFields(LineFields(tk, exchange, q, extra))
  }

  /** The fields of a well-formed line, in order. */
  function LineFields(tk: string, exchange: string, q: Quote, extra: seq<string>): (fs: seq<string>)
    ensures |fs| == 7 + |extra| && fs[0] == tk
    ensures var rest := fs[1..];
      rest[0] == exchange && rest[1] == q.ticker && rest[2] == q.bidPx && rest[3] == IntToDecimal(q.bidQty)
      && rest[4] == q.offerPx && rest[5] == IntToDecimal(q.offerQty)
  {
    [tk, exchange, q.ticker, q.bidPx, IntToDecimal(q.bidQty), q.offerPx, IntToDecimal(q.offerQty)] + extra
  }

  /** The timestamp a 15-digit HHMMSSNNNNNNNNN field denotes. Hours, minutes
      and seconds are not range-checked. */
  function TimestampOf(tk: string): int
    requires |tk| == 15 && AllDigits(tk)
  {
    Nanoseconds(DecimalValue(tk[0..2]), DecimalValue(tk[2..4]), DecimalValue(tk[4..6]), DecimalValue(tk[6..]))
  }

  predicate NoPipe(f: string) { NoDelimiter(f, '|') }

  lemma NoPipeInDecimal(i: int)
    ensures NoPipe(IntToDecimal(i)) && IntToDecimal(i) != []
  {
  }

  lemma DigitsAccepted(tk: string)
    requires |tk| == 15 && AllDigits(tk)
    ensures ParseTimestamp(tk) == Ok(TimestampOf(tk))
  {
    TwoDigitsAccepted(tk[0..2]);
    TwoDigitsAccepted(tk[2..4]);
    TwoDigitsAccepted(tk[4..6]);
    NanosAccepted(tk[6..]);
  }

  lemma TwoDigitsAccepted(f: string)
    requires |f| == 2 && AllDigits(f)
    ensures TwoCharStod(f) == Some(DecimalValue(f))
  {
    ParseDigits(f, "");
    assert f + "" == f;
  }

  lemma NanosAccepted(d: string)
    requires |d| == 9 && AllDigits(d)
    ensures StringToInteger(d, INT64_MIN, INT64_MAX) == Ok(DecimalValue(d))
  {
    ParseDigits(d, "");
    assert d + "" == d;
    DecimalBound(d);
    assert Pow10(9) == 1_000_000_000;
  }

  lemma DecimalBound(d: string)
    requires AllDigits(d)
    ensures DecimalValue(d) < Pow10(|d|)
  {
    if d != [] {
      DecimalBound(d[..|d| - 1]);
    }
  }

  function Pow10(n: nat): nat
  {
    if n == 0 then 1 else 10 * Pow10(n - 1)
  }

  /** A stream standing at the first of the '|'-separated fields fs. */
  predicate AtFields(s: InputStream, fs: seq<string>)
  {
    s.Valid() && s.Good() && |fs| >= 1 && NoPipe(fs[0]) && (|fs| == 1 ==> fs[0] != [])
    && s.data[s.pos..] == JoinFields(fs)
  }

  /** Where the stream stands after the field fs[0]: at the next field, or at
      the end with eofbit set when it was the last. */
  function NextField(s: InputStream, fs: seq<string>): InputStream
    requires |fs| >= 1
  {
    if |fs| > 1 then s.(pos := s.pos + |fs[0]| + 1) else s.(pos := |s.data|, eof := true)
  }

  /** Reading the next field of a '|'-separated text gives the field back. */
  lemma ReadField(s: InputStream, fs: seq<string>)
    requires AtFields(s, fs)
    ensures GetLine(s, '|') == (NextField(s, fs), fs[0])
    ensures |fs| > 1 ==> NextField(s, fs).Valid() && NextField(s, fs).Good()
    ensures |fs| > 1 ==> NextField(s, fs).data[NextField(s, fs).pos..] == JoinFields(fs[1..])
  {
    if |fs| > 1 {
      var rest := JoinFields(fs[1..]);
      assert s.data[s.pos..] == fs[0] + ['|'] + rest;
      GetLineField(s, '|', fs[0], rest);
      assert s.data[s.pos + |fs[0]| + 1..] == s.data[s.pos..][|fs[0]| + 1..];
    } else {
      GetLineLastField(s, '|', fs[0]);
    }
  }

  /** Reading a price and a size written as text. */
  lemma ParsePriceSizeOf(s: InputStream, fs: seq<string>, n: int)
    requires AtFields(s, fs) && |fs| >= 2 && StodAccepts(fs[0])
    requires fs[1] == IntToDecimal(n) && INT64_MIN <= n <= INT64_MAX
    ensures ParsePriceSize(s) == Ok((NextField(NextField(s, fs), fs[1..]), fs[0], n))
  {
    ReadField(s, fs);
    var s1 := NextField(s, fs);
    assert fs[1..][0] == fs[1];
    NoPipeInDecimal(n);
    ReadField(s1, fs[1..]);
    DecimalStoll(n);
    ParsePriceSizeSteps(s, s1, NextField(s1, fs[1..]), fs[0], fs[1], n);
  }

  /** ParsePriceSize, one field at a time. */
  lemma ParsePriceSizeSteps(s: InputStream, s1: InputStream, s2: InputStream, px: string, qty: string, n: int)
    requires s.Valid() && GetLine(s, '|') == (s1, px) && !s1.fail && StodAccepts(px)
    requires GetLine(s1, '|') == (s2, qty) && !s2.fail
    requires StringToInteger(qty, INT64_MIN, INT64_MAX) == Ok(n)
    ensures ParsePriceSize(s) == Ok((s2, px, n))
  {
  }

  /** A size in the 64-bit range written in decimal reads back through
      std::stol. */
  lemma DecimalStoll(n: int)
    requires INT64_MIN <= n <= INT64_MAX
    ensures StringToInteger(IntToDecimal(n), INT64_MIN, INT64_MAX) == Ok(n)
  {
    IntDecimalRoundTrip(n);
  }

  /** Parsing a well-formed line gives back its fields: the ticker verbatim,
      the prices as text, the sizes as numbers and the timestamp as
      ((hh * 60 + mm) * 60 + ss) * 10^9 + nnn; the exchange and any later
      fields are ignored. */
  lemma {:induction false} ParseFormatLine(tk: string, exchange: string, q: Quote, extra: seq<string>)
    requires |tk| == 15 && AllDigits(tk)
    requires NoPipe(exchange) && NoPipe(q.ticker) && NoPipe(q.bidPx) && NoPipe(q.offerPx)
    requires StodAccepts(q.bidPx) && StodAccepts(q.offerPx)
    requires INT64_MIN <= q.bidQty <= INT64_MAX && INT64_MIN <= q.offerQty <= INT64_MAX
    requires q.timestampNs == TimestampOf(tk)
    ensures ParseFields(FormatLine(tk, exchange, q, extra)) == Ok(q)
  {
    var fs := LineFields(tk, exchange, q, extra);
    var rest := fs[1..];
    var line := JoinFields(fs);
    assert line == tk + "|" + JoinFields(rest);
    ParseFieldsAfterTimestamp(line, tk, JoinFields(rest));
    var s1 := InputStream(line, |tk| + 1, false, false);
    assert s1.data[s1.pos..] == JoinFields(rest);
    ParseAfterTimestampOf(s1, rest, q);
  }

  /** A line that starts with a 15-digit timestamp field goes on to the
      fields after it with the timestamp's value. */
  lemma ParseFieldsAfterTimestamp(line: string, tk: string, rest: string)
    requires |tk| == 15 && AllDigits(tk)
    requires line == tk + "|" + rest
    ensures ParseFields(line) == ParseAfterTimestamp(InputStream(line, |tk| + 1, false, false), TimestampOf(tk))
  {
    assert NoPipe(tk) by {
      forall i | 0 <= i < |tk| ensures tk[i] != '|' { assert IsDigit(tk[i]); }
    }
    var s0 := Open(line);
    assert s0.data[s0.pos..] == tk + ['|'] + rest;
    GetLineField(s0, '|', tk, rest);
    DigitsAccepted(tk);
  }

  lemma {:induction false} ParseAfterTimestampOf(s1: InputStream, fs: seq<string>, q: Quote)
    requires s1.Valid() && s1.Good() && |fs| >= 6
    requires NoPipe(fs[0]) && fs[1] == q.ticker && NoPipe(q.ticker)
    requires fs[2] == q.bidPx && NoPipe(q.bidPx) && StodAccepts(q.bidPx)
    requires fs[3] == IntToDecimal(q.bidQty) && INT64_MIN <= q.bidQty <= INT64_MAX
    requires fs[4] == q.offerPx && NoPipe(q.offerPx) && StodAccepts(q.offerPx)
    requires fs[5] == IntToDecimal(q.offerQty) && INT64_MIN <= q.offerQty <= INT64_MAX
    requires s1.data[s1.pos..] == JoinFields(fs)
    ensures ParseAfterTimestamp(s1, q.timestampNs) == Ok(q)
  {
    ReadField(s1, fs);
    var s2 := NextField(s1, fs);
    var fs2 := fs[1..];
    ReadField(s2, fs2);
    var s3 := NextField(s2, fs2);
    var fs3 := fs2[1..];
    assert fs3[0] == q.bidPx && fs3[1] == fs[3];
    ParsePriceSizeOf(s3, fs3, q.bidQty);
    var s4 := SkipPriceSize(s3, fs3, q.bidQty);
    var fs4 := fs3[2..];
    assert fs4[0] == q.offerPx && fs4[1] == fs[5];
    ParsePriceSizeOf(s4, fs4, q.offerQty);
    ParseAfterTimestampSteps(s1, s2, s3, s4, q);
  }

  /** The stream after a price and a size that are not the last fields
      stands at the fields after them. */
  lemma SkipPriceSize(s: InputStream, fs: seq<string>, n: int) returns (s2: InputStream)
    requires AtFields(s, fs) && |fs| > 2 && fs[1] == IntToDecimal(n)
    ensures s2 == NextField(NextField(s, fs), fs[1..])
    ensures s2.Valid() && s2.Good() && s2.data[s2.pos..] == JoinFields(fs[2..])
  {
    ReadField(s, fs);
    assert fs[1..][0] == fs[1] && fs[1..][1..] == fs[2..];
    NoPipeInDecimal(n);
    ReadField(NextField(s, fs), fs[1..]);
    s2 := NextField(NextField(s, fs), fs[1..]);
  }

  /** ParseAfterTimestamp, one step at a time. */
  lemma ParseAfterTimestampSteps(s1: InputStream, s2: InputStream, s3: InputStream, s4: InputStream, q: Quote)
    requires s1.Valid() && GetLine(s1, '|').0 == s2 && !s2.fail
    requires GetLine(s2, '|') == (s3, q.ticker) && !s3.fail
    requires ParsePriceSize(s3) == Ok((s4, q.bidPx, q.bidQty))
    requires ParsePriceSize(s4).Ok? && ParsePriceSize(s4).value.1 == q.offerPx && ParsePriceSize(s4).value.2 == q.offerQty
    ensures ParseAfterTimestamp(s1, q.timestampNs) == Ok(q)
  {
  }

  /** Hours, minutes and seconds are not range-checked: an hour field of 24
      or more is accepted and yields a time past the end of the day. */
  lemma HoursNotRangeChecked(tk: string)
    requires |tk| == 15 && AllDigits(tk) && DecimalValue(tk[0..2]) >= 24
    ensures ParseTimestamp(tk).Ok?
    ensures ParseTimestamp(tk).value >= 24 * 3600 * NanosPerSecond
  {
    DigitsAccepted(tk);
  }
}
