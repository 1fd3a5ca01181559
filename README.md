# Verified models of the C++ samples for Google Cloud

This project models, in Dafny, the logic of the GoogleCloudPlatform C++ samples.
It leaves out the client-library calls around that logic.

- **Indexing applications** (getting-started, getting-started-gke):
  - the row written for each object;
  - the mutation batcher with its background commits;
  - the prefix-by-prefix listing that republishes sub-prefixes and splits the work by time;
  - the function that keeps the index current.
- **Bigtable TAQ samples:** parsing a quote line, batched uploads with retries, and reading the rows back.
- **GCS transfer samples:** command-line checks, slicing, per-slice download tasks, and size formatting.
- **populate-bucket:** the scheduling of work items and the workers that consume them.
- **Smaller samples:**
  - the Cloud Run hello service;
  - the Avro schema-revision cache;
  - the Batch job pollers;
  - the Bigtable CreateInstance poller;
  - the OpenTelemetry and Speech argument parsers;
  - the Cloud IoT MQTT client's options, JWT claims and connect loop.

Every call to a cloud service, the clock, the environment and the file
system is a parameter of the model: a value, or a function from the call's
index to its reply. The model states what the program computes from those
replies. Where a sample changes state in a loop, the model is a method with
a loop and invariants. Where the sample keeps an object, the model is a
class whose methods update its fields. Where the sample computes a value,
the model is a function with lemmas about it.

Modules:

| module | file | models |
|---|---|---|
| Wrappers | wrappers.dfy | Option and Result |
| Text | text.dfy | to_string, printf and strtol-style number text; ASCII lower-casing |
| Streams | streams.dfy | std::getline on an in-memory stream with its eof and fail bits |
| JsonValue | json_value.dfy | the JSON values read from the indexing events |
| HelloService | hello_service.dfy | cloud-run-hello-world/cloud_run_hello.cc |
| AvroCache | avro_cache.dfy | pubsub-avro/quickstart.cc |
| BatchJob | batch_job.dfy | batch/cpp_application/main.cc and driver.cc |
| CreateInstance | create_instance.dfy | bigtable/api/create_instance.cc |
| TaqLine | taq_line.dfy | bigtable/api/parse_taq_line.cc |
| TaqUpload | taq_upload.dfy | bigtable/api/upload_taq_batch.cc |
| ReadRows | read_rows.dfy | bigtable/api/read_rows.cc |
| SizeFormat | format_size.dfy | format_size in the two download samples |
| Download | download.dfy | gcs-fast-transfers/download.cc |
| ParallelDownload | parallel_download.dfy | gcs-parallel-download/gcs_parallel_download.cc |
| PopulateBucket | populate_bucket.dfy | populate-bucket/populate_bucket.cc |
| GcsIndexing | gcs_indexing.dfy | getting-started/gcs_indexing.cc |
| UpdateIndex | update_index.dfy | getting-started/update/update_gcs_index.cc |
| MutationBatching | mutation_batcher.dfy | the MutationBatcher of the GKE indexers |
| PrefixDispatch | prefix_dispatch.dfy | IndexGcsPrefix of the GKE indexers and the reply to Pub/Sub |
| IndexFunction | index_function.dfy | getting-started/index_gcs_prefix.cc |
| OtelArgs | otel_args.dfy | pubsub-open-telemetry/parse_args.cc |
| SpeechArgs | speech_args.dfy | speech/api/parse_arguments.cc |
| Mqtt | mqtt.dfy | iot/mqtt-ciotc/mqtt_ciotc.c |

## Model

| member | source | states |
|---|---|---|
| HelloService.PortFromEnvironment | cloud-run-hello-world/cloud_run_hello.cc:36-48 | An unset PORT gives 8080. Otherwise the stoi result is the port when it lies in [0, 65535]. A value outside that range is refused with the out-of-range message. A stoi failure is passed on. |
| HelloService.PortRoundTrip | cloud-run-hello-world/cloud_run_hello.cc:36-48 | Every uint16 port written in decimal is read back unchanged. |
| HelloService.PortOutOfRangeNamed | cloud-run-hello-world/cloud_run_hello.cc:40-45 | Any int outside the uint16 range is refused, and the message names that value. |
| HelloService.Start | cloud-run-hello-world/cloud_run_hello.cc:33-77 | Start-up succeeds iff PORT is valid and either --help is given or the address parses. Help is shown iff PORT is valid and --help is given. A bad PORT fails first. Listening uses the --address value or 0.0.0.0, and the --port value or the PORT default. |
| HelloService.StartupExitCode | cloud-run-hello-world/cloud_run_hello.cc:71-127 | The exit status is 0 exactly for --help and 1 for every start-up error. |
| HelloService.BadPortAlwaysFails | cloud-run-hello-world/cloud_run_hello.cc:36-74 | An out-of-range PORT makes main exit with status 1, even with --help or --port, because the default is computed first. |
| HelloService.PortOptionWins | cloud-run-hello-world/cloud_run_hello.cc:56-77 | --port overrides PORT. Without --port, PORT is used, or 8080 when it is unset. |
| HelloService.GreetingNamesTarget | cloud-run-hello-world/cloud_run_hello.cc:102-105 | The body is "Hello ", then TARGET (or "World"), then a newline. The target can be read back from it. |
| HelloService.GreetingInjective | cloud-run-hello-world/cloud_run_hello.cc:102-105 | Different targets give different bodies. An unset TARGET reads as "World". |
| HelloService.Respond | cloud-run-hello-world/cloud_run_hello.cc:97-107 | The response is a 200 text/plain reply with the greeting as body, the right content length, and the request's version and keep-alive. |
| HelloService.Session | cloud-run-hello-world/cloud_run_hello.cc:80-112 | Each request is answered with Respond. The session shuts down iff every read before end_of_stream delivered a request and every write succeeded. It reports the first read or write error otherwise. |
| AvroCache.FetchOnlyOnMiss | pubsub-avro/quickstart.cc:65-73 | GetSchema is called iff the revision id is not cached, and it is called with "<schema name>@<revision id>". |
| AvroCache.WriterLookup | pubsub-avro/quickstart.cc:65-84 | The writer schema is reached iff the revision is cached, or its definition is fetched and compileJsonSchema accepts it; it is then the revision's cache entry. Otherwise the cache is unchanged and the message is not acked; an exception left the callback iff the fetch succeeded. |
| AvroCache.AckedIffDecodable | pubsub-avro/quickstart.cc:69-104 | A message is acked iff its writer schema is reached and, for a JSON payload, avro::decode accepts it. Every unacked message left by an exception, except one whose fetch failed. |
| AvroCache.CacheOnlyGrows | pubsub-avro/quickstart.cc:69-84 | Cached schemas are never replaced. The cache changes iff a fetched definition compiles, and then gains exactly that definition under the revision id. |
| AvroCache.DecodesJsonWithCachedSchema | pubsub-avro/quickstart.cc:84-103 | A payload is decoded iff the writer schema is reached and its encoding is "JSON". It is decoded with the cached writer schema of its revision. |
| AvroCache.NoRefetch | pubsub-avro/quickstart.cc:61-104 | After a message reaches its writer schema, another message with the same revision id is not refetched, whatever its schema name. It gets the cached schema and is acked iff it is not JSON or decodes under that schema. |
| AvroCache.HandleAll | pubsub-avro/quickstart.cc:62-105 | The callback over a message sequence produces one handling per message. |
| AvroCache.HandleAllAt | pubsub-avro/quickstart.cc:62-105 | Message j is handled with the cache left by the messages before it. |
| AvroCache.FoundStaysCached | pubsub-avro/quickstart.cc:82-84 | The revision of a message that reached its writer schema stays in every later cache, even when its payload failed to decode. |
| AvroCache.NeverRefetched | pubsub-avro/quickstart.cc:61-83 | A revision whose schema was fetched and compiled is never fetched again by a later message. |
| AvroCache.SchemaCache.OnMessage | pubsub-avro/quickstart.cc:63-105 | The callback's update of revisions_to_schemas and its outcome are the step Handle defines: return on a failed fetch, exception on a definition that does not compile or a payload that does not decode, ack otherwise. |
| BatchJob.ExitCode | batch/cpp_application/main.cc:25-146 | No exit status exactly when the job has no first task group or runnable: the protobuf at(0) fails its bounds check and the process aborts. Exit status 1 exactly for a usage error, a malformed job, a CreateJob failure other than RESOURCE_EXHAUSTED (reported as "already exists"), and a failed GetJob. Every other outcome gives 0. |
| BatchJob.ImageUriDistinguishesRepositories | batch/cpp_application/main.cc:61-63 | The image URI determines the repository name. |
| BatchJob.DelaySchedule | batch/cpp_application/main.cc:88-130 | The first sleep is 2 minutes. Every later sleep is min(2 × previous, 4 minutes), that is 4 minutes. |
| BatchJob.PollTimeAtLeast | batch/cpp_application/main.cc:97-132 | After k ≥ 1 polls, at least 4k − 2 minutes have elapsed. |
| BatchJob.WindowHoldsFourPolls | batch/cpp_application/main.cc:90-99 | At most four polls fit in the 10-minute window. |
| BatchJob.FourPollsWithoutOverhead | batch/cpp_application/main.cc:90-99 | With instant calls, the fourth poll starts exactly at the window's end and still runs (the test is `<=`). |
| BatchJob.PollJob | batch/cpp_application/main.cc:97-136 | Between one and four polls. The sleeps follow the schedule. Polling stops at the first error (reported as a GetJob failure) or the first final state (reported as that state). Otherwise it times out after the first poll that starts past the window. |
| BatchJob.Run | batch/cpp_application/main.cc:25-136 | The usage, file and creation error paths with their outcomes. A parsed job without a first task group or runnable aborts before the image URI is set. The image URI is built from location, project and repository. Polling happens only after a successful creation. After it, the outcome is what the last poll says: GetJobFailed with its code for an error reply, the final state's outcome for a final state, or a timeout once the polling window has closed with the job still running. |
| BatchJob.CancelledOnlyEndsMain | batch/cpp_application/driver.cc:106-121 | CANCELLED is final for main.cc and not for driver.cc, so driver.cc keeps polling a cancelled job. |
| CreateInstance.MakeRequest | bigtable/api/create_instance.cc:40-61 | A request exists iff there are five arguments. It has the parent, instance id, DEVELOPMENT instance, one cluster, and the cluster's location. |
| CreateInstance.WaitSchedule | bigtable/api/create_instance.cc:84-113 | The k-th sleep is 100 ms × 2^k up to k = 10, and 3 minutes from then on. Every sleep lies in [100 ms, 3 min]. |
| CreateInstance.PollOperation | bigtable/api/create_instance.cc:88-114 | An operation done at creation is not polled. Otherwise GetOperation is retried after each failure or pending reply, at most 100 times. The first done reply replaces the operation. The sleeps follow the schedule. |
| CreateInstance.ExitCode | bigtable/api/create_instance.cc:40-160 | Exit status 0 iff the instance was created. |
| CreateInstance.Classify | bigtable/api/create_instance.cc:115-153 | Created iff the operation is done and its response unpacks to an Instance. Timeout iff it is not done. A reported error is passed on. |
| CreateInstance.Run | bigtable/api/create_instance.cc:26-160 | The request is MakeRequest's. Usage and creation errors end without polling. Created needs a done operation whose response unpacks. A done first reply is classified at once. Otherwise every poll before the last was pending, and the outcome is Classify of the last poll's operation when that poll returned a done operation, or a timeout after all 100 polls. |
| Text.NatToDecimal | populate-bucket/populate_bucket.cc:177 | std::to_string of a count is non-empty, all digits, and starts with '0' only for zero. |
| Text.DecimalRoundTrip | populate-bucket/populate_bucket.cc:167-177 | Reading back the decimal text of a count gives the count. |
| Text.NatDecimalParses | getting-started/update/update_gcs_index.cc:45 | A decimal numeral followed by a non-digit parses to its value, and with a '-' in front to its negation, as strtoll reads it. |
| Text.IntDecimalRoundTrip | cloud-run-hello-world/cloud_run_hello.cc:39-44 | Every integer printed in decimal is parsed back to itself. |
| Text.StringToInteger | cloud-run-hello-world/cloud_run_hello.cc:39 | stoi/stoll succeed iff a leading integer parses and lies in the target range, and then give its value. They throw invalid_argument iff no integer parses. |
| Text.TruncQuot | gcs-fast-transfers/gcs_fast_transfers.cc:35 | C++ integer division: it agrees with floor division on non-negative operands and truncates toward zero otherwise. |
| Text.HexRoundTrip | populate-bucket/populate_bucket.cc:210-211 | The std::hex rendering of an offset reads back to the offset. |
| Text.PadLeft | populate-bucket/populate_bucket.cc:210-211 | std::setw/setfill padding keeps the text as a suffix, fills the rest with the fill character, and has length max(width, |text|). |
| Text.Hex8RoundTrip | populate-bucket/populate_bucket.cc:151 | "%08x" of a hash reads back to the hash. |
| Text.Hex8OfWord | populate-bucket/populate_bucket.cc:151 | "%08x" of a 32-bit value is exactly eight characters. |
| Text.ToLower | speech/api/parse_arguments.cc:71-72 | Lower-casing keeps the length and maps each character through tolower. |
| Streams.GetLine | bigtable/api/parse_taq_line.cc:18-56 | std::getline on a good stream with input left returns the text up to the delimiter (which it consumes), or to the end, setting eofbit. On a stream with nothing left, or one already failed, it sets failbit and returns "". |
| Streams.GetLineField | bigtable/api/parse_taq_line.cc:39-55 | A field followed by the delimiter is returned, and the stream stays good just past the delimiter. |
| Streams.GetLineLastField | bigtable/api/parse_taq_line.cc:55-56 | A non-empty last field without a delimiter is returned with eofbit set and failbit clear. |
| Streams.GetLineAtEnd | bigtable/api/upload_taq_batch.cc:105-112 | Reading at the end of the input sets both eofbit and failbit. |
| TaqLine.Message | bigtable/api/parse_taq_line.cc:60-63 | The rethrown message begins with the original exception's what() text, followed by the line number and the line. |
| TaqLine.TwoCharStod | bigtable/api/parse_taq_line.cc:26-28 | An hour, minute or second field converts iff std::stod accepts it. |
| TaqLine.ParseFields | bigtable/api/parse_taq_line.cc:13-25 | An empty line fails on the stream. A first field not 15 characters long is refused with the timestamp-format reason, which quotes the field. |
| TaqLine.ParseAfterTimestamp | bigtable/api/parse_taq_line.cc:38-59 | A quote parsed from the remaining fields carries the timestamp computed before. |
| TaqLine.ParseTaqLine | bigtable/api/parse_taq_line.cc:7-64 | Fails exactly when the field parse fails, with that reason, the line number and the line. |
| TaqLine.DigitsAccepted | bigtable/api/parse_taq_line.cc:21-36 | A 15-digit timestamp is accepted as ((hh·60+mm)·60+ss)·10^9 + nnn. |
| TaqLine.TwoDigitsAccepted | bigtable/api/parse_taq_line.cc:26-28 | Two digits convert to their decimal value. |
| TaqLine.NanosAccepted | bigtable/api/parse_taq_line.cc:29 | Nine digits convert with stoll to their decimal value. |
| TaqLine.ParsePriceSizeOf | bigtable/api/parse_taq_line.cc:45-56 | A price field that stod accepts, followed by a decimal size, yields both and leaves the stream past them. |
| TaqLine.ParseFormatLine | bigtable/api/parse_taq_line.cc:7-59 | Round trip: a TAQ line written from a quote (15-digit timestamp, any exchange, no '\|' in the fields, any extra fields) parses back to that quote. |
| TaqLine.ParseAfterTimestampOf | bigtable/api/parse_taq_line.cc:38-56 | The exchange is skipped, and the ticker, bid and offer fields are read in order into the quote. |
| TaqLine.HoursNotRangeChecked | bigtable/api/parse_taq_line.cc:21-36 | An hour field of 24 or more is not rejected; the timestamp then lies past the end of the day. |
| TaqUpload.MakeEntry | bigtable/api/upload_taq_batch.cc:153-173 | The entry's row key is "<yyyymmdd>/<ticker>". It has one SetCell in family "taq", column "quotes", timestamp 0. |
| TaqUpload.RowKeyInjective | bigtable/api/upload_taq_batch.cc:158 | For dates without '/', the row key determines both the date and the ticker. |
| TaqUpload.SlashAfterDate | bigtable/api/upload_taq_batch.cc:158 | The first '/' of a row key follows the date. |
| TaqUpload.SortResponses | bigtable/api/upload_taq_batch.cc:201-218 | The classification keeps the request's length. |
| TaqUpload.SortResponsesSpec | bigtable/api/upload_taq_batch.cc:201-218 | Permanent errors are collected in response order. Exactly the retryable indices are moved, in order, into the next request, leaving empty entries behind. Every other entry stays. An out-of-range index is caught iff a retryable index is out of range. |
| TaqUpload.MovedStep | bigtable/api/upload_taq_batch.cc:216 | One Swap moves one more entry into the retry request and empties it in the old one. |
| TaqUpload.PermanentErrorAborts | bigtable/api/upload_taq_batch.cc:208-223 | Any permanent error ends the call after that attempt, with all of that attempt's permanent errors, no sleep and no further attempt. |
| TaqUpload.CompletedClearsRequest | bigtable/api/upload_taq_batch.cc:224-231 | A completed call leaves the request empty. |
| TaqUpload.AttemptBudget | bigtable/api/upload_taq_batch.cc:184-247 | At most 100 MutateRows calls are made. Exhaustion means exactly 100 calls, each followed by a sleep. Any other end sleeps once less than it calls. |
| TaqUpload.BackoffClosedForm | bigtable/api/upload_taq_batch.cc:186-238 | After n doublings the backoff is min(10 ms · 2^n, 5 min). |
| TaqUpload.BackoffMonotone | bigtable/api/upload_taq_batch.cc:235-238 | The backoff never decreases and never exceeds five minutes. |
| TaqUpload.RunSleeps | bigtable/api/upload_taq_batch.cc:232-242 | The k-th sleep of a call is the backoff doubled k+1 times. |
| TaqUpload.BackoffSchedule | bigtable/api/upload_taq_batch.cc:186-242 | The k-th sleep is min(10 ms · 2^(k+1), 5 min), so the sleeps are non-decreasing and capped. |
| TaqUpload.RunOneAttempt | bigtable/api/upload_taq_batch.cc:191-246 | One attempt either ends the call (bad index, permanent errors, or nothing to retry) or sleeps the next backoff and continues with the retry request. |
| TaqUpload.BadIndexSticky | bigtable/api/upload_taq_batch.cc:216 | Once an out-of-range index is met, the rest of the response does not change the outcome. |
| TaqUpload.MutateRowsRequest.AppendToRequest | bigtable/api/upload_taq_batch.cc:153-173 | Appends MakeEntry's entry to the request. |
| TaqUpload.MutateRowsRequest.ApplyResponse | bigtable/api/upload_taq_batch.cc:193-219 | The in-place loop over one response leaves the request, retry request, permanent errors and bad index SortResponses defines. |
| TaqUpload.MutateRowsRequest.MutateWithRetries | bigtable/api/upload_taq_batch.cc:180-248 | The outcome, the entries left in the request and the sleeps are those of Run from attempt 0 with a 10 ms backoff. |
| TaqUpload.GroupingPreservesQuotes | bigtable/api/upload_taq_batch.cc:109-139 | Grouping by ticker loses, adds and reorders nothing: the groups expand back to the quotes. Groups are non-empty, with non-empty tickers, and neighbours differ. |
| TaqUpload.GroupStep | bigtable/api/upload_taq_batch.cc:114-129 | One quote either closes the current group (appended only when its ticker is non-empty) and starts a new one, or extends the current group. |
| TaqUpload.ReadsTerminatedLines | bigtable/api/upload_taq_batch.cc:111-112 | With the corrected end test, a file of newline-terminated lines is read as exactly those lines. |
| TaqUpload.AsWrittenReadsExtraLine | bigtable/api/upload_taq_batch.cc:111-113 | As written, the same file yields one extra empty line. |
| TaqUpload.TrailingNewlineFailsUpload | bigtable/api/upload_taq_batch.cc:105-113 | As written, any file ending in a newline hands "" to parse_taq_line, which throws, so main exits with 1. The corrected read returns exactly the data lines. |
| TaqUpload.ParseAll | bigtable/api/upload_taq_batch.cc:111-113 | Parsing every line succeeds with one quote per line. |
| TaqUpload.SendBatch | bigtable/api/upload_taq_batch.cc:131-133 | The pending entries are sent as one more batch. It succeeds iff their MutateRows run completes, which empties the request. |
| TaqUpload.AddQuote | bigtable/api/upload_taq_batch.cc:114-129 | The current Quotes and the pending entries advance exactly as GroupByTicker does. |
| TaqUpload.UploadQuote | bigtable/api/upload_taq_batch.cc:114-133 | One parsed quote keeps the loop's upload state. When its batch is not completed, the batches sent are full and hold the closed groups' entries, and the last one failed. |
| TaqUpload.ParseAndUpload | bigtable/api/upload_taq_batch.cc:111-133 | A line that parses advances the upload state. A failure is either a parse failure of the lines read so far, or a failed batch of the closed groups after the quotes parsed so far. |
| TaqUpload.Batches | bigtable/api/upload_taq_batch.cc:98-140 | The batches main sends when every batch completes: they concatenate to the entries, every batch but the last holds 1024 entries, and the last holds 1 to 1024. |
| TaqUpload.BatchesPrefix | bigtable/api/upload_taq_batch.cc:131-133 | Full batches followed by more entries are the first batches of Batches of all of them. |
| TaqUpload.BatchesUnique | bigtable/api/upload_taq_batch.cc:131-140 | Batches that are full except a last one of 1 to 1024 entries are exactly Batches of their concatenation. |
| TaqUpload.ClosedPrefix | bigtable/api/upload_taq_batch.cc:114-122 | Grouping a prefix of the quotes closes a prefix of the groups. |
| TaqUpload.ParsePrefix | bigtable/api/upload_taq_batch.cc:111-113 | When all the lines parse, every prefix of them parses into a prefix of the quotes. |
| TaqUpload.MakeEntriesAppend | bigtable/api/upload_taq_batch.cc:153-173 | The entries of two runs of groups are the entries of each run in turn. |
| TaqUpload.FailedBatchOfAll | bigtable/api/upload_taq_batch.cc:131-133 | A batch that failed in the loop is one of the batches main sends for the whole file, so those do not all complete. |
| TaqUpload.UploadLastBatch | bigtable/api/upload_taq_batch.cc:139-140 | After the last batch, the batches sent are exactly Batches of the entries of every group, the last one included. It succeeds iff every batch sent completed. |
| TaqUpload.ReadAndUpload | bigtable/api/upload_taq_batch.cc:102-137 | The lines are those the loop reads, as main reads them or stopping at a failed getline, as asWritten selects. When the loop ends without error, every line has parsed, and the request and the batches sent hold exactly the ticker groups closed so far. When it fails, either the lines do not all parse, or a batch failed whose quotes are a prefix of the parse. |
| TaqUpload.UploadLines | bigtable/api/upload_taq_batch.cc:102-143 | The lines are those the loop reads as written or corrected, as asWritten selects. Exit 0 iff every line parses and every batch of Batches for the groups' entries completes. The batches are then exactly those: one entry per ticker group, in order, in batches of 1024 with a last one of 1 to 1024. |
| TaqUpload.UploadTaqBatch | bigtable/api/upload_taq_batch.cc:61-150 | Exit 0 iff there are five arguments, every data line of the file parses, and every batch of Batches for the date and the groups completes. The batches sent are then exactly those. With asWritten the lines are those main's loop reads, which for a file ending in a newline include a final "". |
| ReadRows.MakeRequest | bigtable/api/read_rows.cc:75-92 | The request filters on family "taq", then column "quotes", and asks for the two distinct rows "<date>/A" and "<date>/AA". |
| ReadRows.Classify | bigtable/api/read_rows.cc:129-146 | A committed value is reported under the current row key. It is a parse failure iff ParseFromString fails. It is an average spread iff the bid and offer counts are equal and non-zero, and the count printed is the offer count. |
| ReadRows.Check | bigtable/api/read_rows.cc:108-122 | A chunk is refused iff it names a family other than "taq", a column other than "quotes", or a non-zero timestamp. The family is checked first, then the column, then the timestamp. |
| ReadRows.StepAsWritten | bigtable/api/read_rows.cc:104-150 | One chunk as written: the row key is kept unless the chunk carries a new one, and the value is appended. A commit reports the accumulated value. Only reset_row clears the buffer. |
| ReadRows.Step | bigtable/api/read_rows.cc:104-150 | The corrected step is the step as written, except that the value buffer is also cleared after a commit. |
| ReadRows.RunState | bigtable/api/read_rows.cc:103-152 | After an error-free stream, the state holds the last row key and the value accumulated since the last clear. There is one report per commit. |
| ReadRows.RunError | bigtable/api/read_rows.cc:103-122 | The stream fails iff some chunk is refused, and then with the first refused chunk's error. |
| ReadRows.CommitReport | bigtable/api/read_rows.cc:126-146 | A commit appends exactly one report for the current key and the buffered value plus the chunk's value. |
| ReadRows.RowParsedFromOwnValues | bigtable/api/read_rows.cc:126-146 | With the corrected step, a row committed after a previous commit is parsed from its own values only. |
| ReadRows.PendingAfterCommit | bigtable/api/read_rows.cc:126-150 | With the corrected step, the buffer after a commit holds only the values of later chunks. |
| ReadRows.CommitKeepsPreviousRow | bigtable/api/read_rows.cc:126-150 | As written, for any two single-chunk committed rows "A" and "AA", row AA is classified from A's value followed by its own. The corrected step classifies AA from its own value. Protobuf merges concatenated messages, so as written AA's report also counts A's quotes. |
| ReadRows.ReadRowsMain | bigtable/api/read_rows.cc:37-161 | A wrong argument count exits with 1. Otherwise the request is MakeRequest's, and the reports are those of the run over all chunks: the as-written run (buffer kept after a commit) or the corrected run, as clearOnCommit selects. The exit status is 0 iff no chunk was refused. |
| ReadRows.ReadResponse | bigtable/api/read_rows.cc:104-151 | The loop over one response's chunks reaches the state of the run over every chunk so far (as written or corrected, as clearOnCommit selects), or stops at its first refused chunk. |
| ReadRows.HandleChunk | bigtable/api/read_rows.cc:105-150 | One chunk advances the state exactly as StepAsWritten does, or as Step does when clearOnCommit is set. |
| ReadRows.ErrorSticky | bigtable/api/read_rows.cc:111-121 | Once a chunk is refused, later chunks change nothing: the exception ends main. |
| SizeFormat.TruncDiv | gcs-fast-transfers/gcs_fast_transfers.cc:35 | The int64 division of the size: it agrees with floor division for non-negative sizes and truncates negatives toward zero. |
| SizeFormat.FormatSizeSpec | gcs-fast-transfers/gcs_fast_transfers.cc:25-38 | The text is the decimal of the size divided by the scale of the first range whose bound exceeds it, followed by that range's units (PiB above all). |
| SizeFormat.SmallSizesInBytes | gcs-fast-transfers/gcs_fast_transfers.cc:31-35 | Sizes below 1 KiB, negatives included, are shown unchanged in Bytes. |
| SizeFormat.FormatSizeReadsBack | gcs-parallel-download/gcs_parallel_download.cc:267-280 | The number printed v satisfies v·scale ≤ size < (v+1)·scale. Below 1 PiB it lies in [1, 1023], or [0, 1023] for Bytes. |
| SizeFormat.QuotientBounds | gcs-parallel-download/gcs_parallel_download.cc:276-279 | The quotient by the chosen scale is bounded as above. |
| Download.ComputeSlices | gcs-fast-transfers/download.cc:37-55 | The slices always sum to the object size. When size / thread_count (truncated) reaches the minimum, there are thread_count equal slices with the remainder added to the last. Otherwise there are ⌈size / minimum⌉ slices of the minimum size, the last one holding what is left. |
| Download.MinimumSizeSlices | gcs-fast-transfers/download.cc:51-53 | The loop's slices sum to the size. Every slice but the last has the minimum size, and the last is positive and at most the minimum. |
| Download.SliceBranches | gcs-fast-transfers/download.cc:43-44 | When the minimum is reached, the thread count is positive. Otherwise the minimum is positive. |
| Download.MinimumSlicesCount | gcs-fast-transfers/download.cc:51-53 | The number of minimum-size slices is ⌈size / minimum⌉. |
| Download.Offsets | gcs-fast-transfers/download.cc:107-114 | Each task's offset is the sum of the lengths of the slices before it. |
| Download.RangesCover | gcs-fast-transfers/download.cc:107-114 | Every byte of the object lies in some task's range. |
| Download.RangesDisjoint | gcs-fast-transfers/download.cc:107-114 | No byte lies in two tasks' ranges. |
| Download.WritesContiguous | gcs-fast-transfers/download.cc:64-73 | The k-th pwrite writes the k-th read's bytes at the task's offset plus everything read before. |
| Download.LastRead | gcs-fast-transfers/download.cc:66-73 | The loop stops at the first bad or end-of-file read. A bad read's bytes are not counted; an end-of-file read's are. |
| Download.Task | gcs-fast-transfers/download.cc:57-76 | The writes are contiguous from the offset. A task succeeds iff every pwrite returned a non-negative value, and then reports the range and the bytes counted. Otherwise it fails on the first negative pwrite, and the error names the call "pwrite()" as the source passes it (asWritten), or the bare "pwrite" when corrected. |
| Download.DoubledParentheses | gcs-fast-transfers/download.cc:70-71 | As written, the error message reads "Error in pwrite()() - ". |
| Download.CallNamedOnce | gcs-fast-transfers/download.cc:246-252 | With the call named "pwrite", the message reads "Error in pwrite() - ". |
| Download.MessagePrefix | gcs-fast-transfers/download.cc:249-251 | check_system_call's message begins with "Error in <name>() - ". |
| Download.VerifyDownloadSucceeds | gcs-fast-transfers/download.cc:130-145 | main exits with 0 iff the downloaded size and CRC32C both match the metadata, and with 1 otherwise. |
| Download.ParseCommandLine | gcs-fast-transfers/download.cc:157-244 | Every usage exit has status 0 or 1. |
| Download.ParseCommandLineAccepts | gcs-fast-transfers/download.cc:180-244 | The options are accepted iff bucket, object and destination are all given and non-empty, --help is absent, and neither the thread count nor the minimum slice size is zero. They are then passed through unchanged. |
| Download.HelpExitsSuccessfully | gcs-fast-transfers/download.cc:223-229 | --help, or no arguments at all, prints the usage and exits with 0. |
| ParallelDownload.ToUint64 | gcs-parallel-download/gcs_parallel_download.cc:74 | A signed value converted to uint64 lies in [0, 2^64) and is unchanged when it is non-negative. |
| ParallelDownload.ToInt32 | gcs-parallel-download/gcs_parallel_download.cc:82 | The static_cast<int> of a thread count lies in the int range and is unchanged when it fits. |
| ParallelDownload.SliceAndThreadsPositive | gcs-parallel-download/gcs_parallel_download.cc:73-83 | With positive options: size / desired when that reaches the minimum (desired threads). Otherwise the whole object in one thread when it is smaller than the minimum. Otherwise minimum-size slices with size / minimum threads, at least one when the count fits an int. |
| ParallelDownload.SliceRanges | gcs-parallel-download/gcs_parallel_download.cc:127-133 | The task loop's ranges tile [0, size) in order. All but the last have the slice size, and the last holds the rest. An empty object gets no task. |
| ParallelDownload.AppendRange | gcs-parallel-download/gcs_parallel_download.cc:127-133 | A range starting where the previous ones end keeps the ranges tiled and adds its length to their total. |
| ParallelDownload.MoreTasksThanAnnounced | gcs-parallel-download/gcs_parallel_download.cc:73-133 | A 10-byte object with 3 threads is announced as 3 slices, but it is cut into 4 ranges, the last one of 1 byte. |
| ParallelDownload.CheckOptionsAccepts | gcs-parallel-download/gcs_parallel_download.cc:53-68 | The corrected checks accept the options iff bucket, object and destination are given and non-empty, --help is absent, and the thread count and the minimum slice size are non-zero. A refusal exits with 0 or 1. |
| ParallelDownload.EmptyBucketAccepted | gcs-parallel-download/gcs_parallel_download.cc:55-60 | As written, an empty --bucket passes the emptiness check, because the test skips every option that is present. The corrected check refuses it. |
| ParallelDownload.ZeroMinimumStalls | gcs-parallel-download/gcs_parallel_download.cc:68-128 | As written, --minimum-slice-size=0 is accepted. A 1-byte object with 2 threads then gets slice size 0, so the task loop never advances its offset. The corrected check refuses the option. |
| ParallelDownload.CheckedSliceAdvances | gcs-parallel-download/gcs_parallel_download.cc:73-83 | Once both options are non-zero, the slice size of a non-empty object is positive, so the task loop ends. |
| ParallelDownload.PlanDownload | gcs-parallel-download/gcs_parallel_download.cc:47-133 | Fails iff the checks fail, with their exit: the checks as written or the corrected ones, as asWritten selects. Otherwise the slicing is SliceAndThreads's and the announcement is printed from it. The ranges tile the object with the slice size, which is positive for a non-empty object. |
| PopulateBucket.AlphabetIsAlphanumeric | populate-bucket/populate_bucket.cc:134 | The alphabet holds 36 alphanumeric characters. The array that stores it is 37 long, and its last element is NUL. |
| PopulateBucket.AsWrittenLeavesAlphabet | populate-bucket/populate_bucket.cc:133-141 | As written, a drawn character is non-alphanumeric iff the draw is 36, the bound sizeof(alphabet) - 1, which picks the NUL. |
| PopulateBucket.NulCharacterDrawn | populate-bucket/populate_bucket.cc:136-139 | As written, the draw 36 is allowed and yields "\0". |
| PopulateBucket.RandomAlphanum | populate-bucket/populate_bucket.cc:133-141 | With draws limited to the 36 letters and digits, the fragment has one character per draw, each alphanumeric. |
| PopulateBucket.HashedNameParts | populate-bucket/populate_bucket.cc:144-153 | Without the hash flag the name is unchanged. With it, the name is eight hex digits whose value is the CRC32C of the name, then '_', then the name. |
| PopulateBucket.ParseMessage | populate-bucket/populate_bucket.cc:162-170 | Parsing succeeds iff the four attributes are present and object_count passes stoll. Bucket and prefix are copied, the count is the parsed leading integer, and the flag holds iff use_hash_prefix is "true". A missing attribute is named, and bucket is looked up first. |
| PopulateBucket.FormatWorkItemAsWritten | populate-bucket/populate_bucket.cc:172-181 | The message carries exactly the four attributes parse_message reads. |
| PopulateBucket.AsWrittenRoundTrip | populate-bucket/populate_bucket.cc:162-181 | As written, parsing a formatted work item gives it back with use_hash_prefix replaced by "object_count is non-zero". |
| PopulateBucket.HashFlagLost | populate-bucket/populate_bucket.cc:178 | As written, a 1000-object item without the hash prefix comes back with it. |
| PopulateBucket.FormatWorkItem | populate-bucket/populate_bucket.cc:172-181 | The corrected message carries exactly the four attributes. |
| PopulateBucket.WorkItemRoundTrip | populate-bucket/populate_bucket.cc:162-181 | Round trip: parsing the corrected message of any work item with an int64 count gives the item back. |
| PopulateBucket.CheckScheduleOptions | populate-bucket/populate_bucket.cc:187-195 | schedule continues iff --project is non-empty and --topic and --bucket are given. The first failed check's message is the one thrown. |
| PopulateBucket.PrefixParts | populate-bucket/populate_bucket.cc:207-213 | A prefix is "name-", a 32-character fragment, "-offset-", then at least eight hex digits whose value is the offset. The corrected fragment is alphanumeric. With asWritten, a fragment character is non-alphanumeric iff its draw was 36, and it is then NUL. |
| PopulateBucket.PrefixesDistinct | populate-bucket/populate_bucket.cc:207-213 | Work items at different offsets get different prefixes, whatever the random fragments, as written or corrected. |
| PopulateBucket.ItemCount | populate-bucket/populate_bucket.cc:218 | A positive object count gives at least one work item. |
| PopulateBucket.WorkItems | populate-bucket/populate_bucket.cc:218-231 | There are ⌈count / task size⌉ items (none for a non-positive count). Item k has prefix make_prefix(k·task_size), made as written (draws up to 36) or corrected as asWritten selects, and holds min(task_size, count − offset) objects. The counts sum to the object count. |
| PopulateBucket.NonPositiveTaskSizeNeverEnds | populate-bucket/populate_bucket.cc:199-229 | As written, --task-size is not checked. With a positive object count and a task size ≤ 0, the offset after any number of rounds is still below the count, so the loop never ends, and each item holds task_size ≤ 0 objects. |
| PopulateBucket.OffsetIsProduct | populate-bucket/populate_bucket.cc:218 | The k-th offset is k · task_size. |
| PopulateBucket.PartitionCounts | populate-bucket/populate_bucket.cc:218-225 | The loop's counts are full task sizes except the last, which holds the rest, and they sum to the object count. |
| PopulateBucket.TallyCounts | populate-bucket/populate_bucket.cc:233-238 | error_count holds a code iff some publish returned that non-OK code, and it holds that code's number of occurrences. |
| PopulateBucket.TallyTotal | populate-bucket/populate_bucket.cc:241-245 | The counts in error_count sum to the number of failed publishes. |
| PopulateBucket.NoErrors | populate-bucket/populate_bucket.cc:234-239 | No failed publish iff every publish was OK. |
| PopulateBucket.EmptyTally | populate-bucket/populate_bucket.cc:239 | error_count is empty iff no publish failed. |
| PopulateBucket.TallyErrors | populate-bucket/populate_bucket.cc:233-247 | The loop builds exactly the tally. It succeeds iff every publish was OK, and otherwise throws "Errors publishing messages, count=<failed publishes>". |
| PopulateBucket.Messages | populate-bucket/populate_bucket.cc:226-229 | One message per work item, each formatted from its item by format_work_item as written or corrected, as asWritten selects. |
| PopulateBucket.MessagesRoundTrip | populate-bucket/populate_bucket.cc:162-229 | Every scheduled message parses back, in a worker, to the work item it was made from when corrected. As written it parses back with the hash flag on, whatever the schedule asked for. |
| PopulateBucket.ScheduleFailure | populate-bucket/populate_bucket.cc:187-199 | As written, the checks are exactly the option checks of the source. Corrected, schedule also needs --task-size > 0, and passes iff the source's checks pass and the task size is positive. |
| PopulateBucket.Schedule | populate-bucket/populate_bucket.cc:184-248 | A failed check throws its message before anything is published. Otherwise the work items are WorkItems's, and one message is published per item. Each message parses back to its item, or as written to its item with the hash flag on. asWritten selects the source's prefixes, messages and checks or the corrected ones. The action succeeds iff every publish was OK, and otherwise reports the total. |
| PopulateBucket.ObjectNamesDistinct | populate-bucket/populate_bucket.cc:259-261 | Different indices give different object names, with or without the hash prefix. |
| PopulateBucket.InsertObjects | populate-bucket/populate_bucket.cc:259-263 | Object i is inserted under the hashed name of "<prefix>/object-<i>" with its contents, in index order. Success means all objects were inserted. The first failed insert ends the loop and is named. |
| PopulateBucket.ProcessOneItem | populate-bucket/populate_bucket.cc:257-264 | A message that does not parse throws before any insert. Otherwise the work item's objects are inserted as above. |
| GcsIndexing.Int64Cast | getting-started/gcs_indexing.cc:90-92 | static_cast<std::int64_t> of an unsigned size lies in the int64 range. It is unchanged iff the size fits, and congruent to it modulo 2^64. |
| GcsIndexing.SizeStored | getting-started/gcs_indexing.cc:90-92 | The size column holds the size, or the size minus 2^64 above INT64_MAX. |
| GcsIndexing.NamesIncrease | getting-started/gcs_indexing.cc:143-152 | The column names come out of the std::map in strictly increasing byte order. |
| GcsIndexing.IncreasingIsSorted | getting-started/gcs_indexing.cc:143-152 | In a strictly increasing name list, every earlier name orders before every later one. |
| GcsIndexing.NamesAreColumns | getting-started/gcs_indexing.cc:143-152 | Names() lists exactly the keys of the column table. |
| GcsIndexing.NamesDistinct | getting-started/gcs_indexing.cc:143-152 | No column name appears twice. |
| GcsIndexing.TwentySevenColumns | getting-started/gcs_indexing.cc:69-154 | ColumnCount() and the number of names are both 27. |
| GcsIndexing.UpdateObjectMetadata | getting-started/gcs_indexing.cc:156-167 | The mutation is an insert-or-update of gcs_objects, over the column names, with one value per column. |
| GcsIndexing.ValueUnderName | getting-started/gcs_indexing.cc:156-167 | The value in position i is the column named Names()[i] applied to the object. |
| GcsIndexing.ColumnsTyped | getting-started/gcs_indexing.cc:69-138 | Every extractor, NULLs included, yields a value of its column's Spanner type. |
| GcsIndexing.RowFitsSchema | getting-started/gcs_indexing.cc:156-167 | Every value of the row has the type of the column it is stored under. |
| GcsIndexing.OptionalStringColumns | getting-started/gcs_indexing.cc:46-124 | Optional strings (contentType, etag, md5Hash) are NULL iff empty, and the string otherwise. |
| GcsIndexing.TimestampColumns | getting-started/gcs_indexing.cc:56-80 | Time columns are NULL iff the time is the epoch, and the timestamp otherwise. |
| GcsIndexing.AbsentObjectsAreNull | getting-started/gcs_indexing.cc:112-135 | owner and customerEncryption are NULL iff the object has none. |
| GcsIndexing.MetadataJson | getting-started/gcs_indexing.cc:106-111 | The metadata JSON is null iff the object has no custom metadata, since nlohmann::json{} is null until a key is assigned. Otherwise it is an object with exactly the metadata keys, each mapped to its string. |
| GcsIndexing.MetadataColumn | getting-started/gcs_indexing.cc:106-111 | The metadata column holds the JSON text of null iff there is no custom metadata, and otherwise the text of an object over the metadata keys. |
| GcsIndexing.GetEnv | getting-started/gcs_indexing.cc:169-176 | GetEnv returns the variable's value when it is set, and otherwise throws "Environment variable <name> is not set". |
| UpdateIndex.Kinds | getting-started/update/update_gcs_index.cc:102-130 | The extractor table as written has one extractor per column name. |
| UpdateIndex.HoldColumns | getting-started/update/update_gcs_index.cc:111-112 | Exactly the eventBasedHold and temporaryHold columns use optional_field with a bool default. |
| UpdateIndex.CorrectedKinds | getting-started/update/update_gcs_index.cc:102-130 | The corrected table has one extractor per name, and none reaches the int64 overload with a bool. |
| UpdateIndex.KindsMatchSchema | getting-started/update/update_gcs_index.cc:102-130 | Each extractor is declared with the type of the column it fills in the gcs_indexing table, in both tables. |
| UpdateIndex.ExtractTyped | getting-started/update/update_gcs_index.cc:42-98 | Each extractor yields a value of its declared type. The exception is the hold columns as written, which would give an INT64 for a present field and a BOOL NULL for an absent one. |
| UpdateIndex.AbsentIsNull | getting-started/update/update_gcs_index.cc:62-86 | An optional, object or timestamp field missing from the payload gives a NULL of the column's type. |
| UpdateIndex.PresentObjectDumped | getting-started/update/update_gcs_index.cc:72-79 | A present object field is stored as its JSON dump. |
| UpdateIndex.TimestampParsed | getting-started/update/update_gcs_index.cc:82-97 | A present timestamp is stored as what ParseTime returns. A parse failure throws "timestamp p[<name>]=<value>: <error>". |
| UpdateIndex.MissingInt64Throws | getting-started/update/update_gcs_index.cc:42-46 | A missing required int64 field reaches stoll(""), which throws invalid_argument. |
| UpdateIndex.Int64RoundTrip | getting-started/update/update_gcs_index.cc:42-46 | An int64 written as a decimal string is stored as that integer. |
| UpdateIndex.Values | getting-started/update/update_gcs_index.cc:148-155 | When every extractor succeeds, there is one value per column. |
| UpdateIndex.ValuesCharacterised | getting-started/update/update_gcs_index.cc:148-155 | Extraction succeeds iff every column's extractor succeeds, and value i is extractor i's. A failure is the first failing extractor's, in column order. |
| UpdateIndex.ValuesFailAt | getting-started/update/update_gcs_index.cc:151-155 | Any failing extractor makes the whole row fail. |
| UpdateIndex.UpdateObjectMetadata | getting-started/update/update_gcs_index.cc:148-159 | A row that is built is an insert-or-update of gcs_objects over the column names, with one value per column. |
| UpdateIndex.DeleteObjectMetadata | getting-started/update/update_gcs_index.cc:161-170 | The delete succeeds iff bucket and name are strings and generation converts. Its key is (bucket, name, generation), in that order. The first failure in that order is reported. |
| UpdateIndex.DeleteKeyOrder | getting-started/update/update_gcs_index.cc:161-170 | A well-formed payload gives the delete of exactly (bucket, name, generation) in gcs_objects. |
| UpdateIndex.Payload | getting-started/update/update_gcs_index.cc:187 | An event without data is read as "{}". |
| UpdateIndex.EventMutations | getting-started/update/update_gcs_index.cc:186-192 | The commit callback returns one mutation. It is a delete iff the event type is object.v1.deleted, and an upsert of the payload otherwise. |
| UpdateIndex.UpdateGcsIndex | getting-started/update/update_gcs_index.cc:184-194 | The function succeeds iff the mutations are built and the commit succeeds. An extraction failure is reported as such. |
| UpdateIndex.MissingDataFailsAtBucket | getting-started/update/update_gcs_index.cc:103-187 | An event without data fails at the first column, "bucket". |
| UpdateIndex.HoldFlagRejected | getting-started/update/update_gcs_index.cc:42-111 | As written, a JSON boolean temporaryHold reaches the int64 overload, so p.value(name, "") throws and no row is written. |
| UpdateIndex.CorrectedHoldStored | getting-started/update/update_gcs_index.cc:111-112 | With the BOOL extractor, the boolean is stored under temporaryHold. |
| UpdateIndex.CorrectedRowFitsSchema | getting-started/update/update_gcs_index.cc:102-159 | With the corrected table, every value of the built row has its column's Spanner type. |
| MutationBatching.RowLimitFiresFirst | getting-started/gke/index_gcs.cc:136-146 | With 27 columns, FlushIfNeeded's two tests together fire exactly when the buffer holds 256 rows or more. The 20,000-mutation limit is never the one that fires. |
| MutationBatching.RunningMembers | getting-started-gke/index_gcs_prefix.cc:313-320 | One remove_if pass keeps exactly the tasks that are not ready yet. |
| MutationBatching.RunningIncreasing | getting-started-gke/index_gcs_prefix.cc:313-320 | A pass keeps the surviving tasks in launch order. |
| MutationBatching.RunningTwice | getting-started/gke/index_gcs.cc:167-175 | A pass at r followed by a pass at r' >= r leaves what a single pass at r' leaves. |
| MutationBatching.RunningAppend | getting-started/gke/index_gcs.cc:168-174 | A pass over a concatenation is the concatenation of the passes. |
| MutationBatching.MaxFinishBounds | getting-started-gke/index_gcs_prefix.cc:313-320 | No running task becomes ready later than the maximum finishing pass. |
| MutationBatching.MaxFinishAttained | getting-started/gke/index_gcs.cc:165-176 | Some running task becomes ready exactly at the maximum finishing pass. |
| MutationBatching.PassShrinksMaxFinish | getting-started-gke/index_gcs_prefix.cc:313-320 | Tasks that survive a pass become ready only after it, and the pass never raises the maximum finishing pass. |
| MutationBatching.PassLowersPotential | getting-started-gke/index_gcs_prefix.cc:313-320 | Each pass lowers the task count plus the passes still to wait, so the reaping loop ends. |
| MutationBatching.ReapStep | getting-started-gke/index_gcs_prefix.cc:313-320 | One more pass keeps the loop's invariant: the list is what the latest pass over the original list left. |
| MutationBatching.LaunchThenReap | getting-started-gke/index_gcs_prefix.cc:297-307 | After a new commit task is launched and the list is reaped, the tasks stay in launch order and all come from earlier flushes. |
| MutationBatching.MutationBatcher.StatusOf | getting-started-gke/index_gcs_prefix.cc:270-275 | The future returned for a row holds a status iff its row has left the buffer in a flush. |
| MutationBatching.MutationBatcher.ReapBackgroundTasks | getting-started-gke/index_gcs_prefix.cc:310-321 | The loop ends with fewer than 128 running tasks. A list already under 128 is left as it was; otherwise the result is what the last pass left. |
| MutationBatching.MutationBatcher.SetPromises | getting-started-gke/index_gcs_prefix.cc:304 | Every item of the batch gets the commit's status, and earlier promises keep theirs. |
| MutationBatching.MutationBatcher.Flush | getting-started-gke/index_gcs_prefix.cc:293-308 | An empty buffer changes nothing. Otherwise the buffer is emptied, every flushed row's future receives the status of one new commit, earlier results are kept and the task list is reaped. |
| MutationBatching.MutationBatcher.FlushIfNeeded | getting-started-gke/index_gcs_prefix.cc:280-291 | The buffer is flushed iff it holds 256 rows, and is otherwise left untouched. |
| MutationBatching.MutationBatcher.Push | getting-started-gke/index_gcs_prefix.cc:270-276 | The object's row is buffered after any flush it triggers. When the buffer held 256 rows, that flush commits them: each of their futures gets the flush's commit result, the flush count grows by one, and the commit joins the background tasks before they are reaped. Otherwise the flush count, the results, the background tasks and the reaping rounds are unchanged. The new ticket's future is still pending, earlier results are kept, and the buffer never holds more than 256 rows. |
| PrefixDispatch.ContinuationMessage | getting-started-gke/index_gcs_prefix.cc:395-402 | The continuation message carries the bucket and the start name, and carries the prefix iff the request had one. |
| PrefixDispatch.LoopStep | getting-started-gke/index_gcs_prefix.cc:392-422 | Handling one more entry before the deadline keeps the listing loop's invariant. |
| PrefixDispatch.ExhaustedAsListed | getting-started-gke/index_gcs_prefix.cc:390-422 | A listing handled to its end yields one future per entry, each dispatched as listed. |
| PrefixDispatch.FailedAsListed | getting-started-gke/index_gcs_prefix.cc:392-393 | An error entry ends the call with "listing bucket " + bucket and the entry's status. |
| PrefixDispatch.SplitAsListed | getting-started-gke/index_gcs_prefix.cc:394-407 | At the deadline, one continuation message starting from the current entry is published and the loop stops. |
| PrefixDispatch.DispatchEntry | getting-started-gke/index_gcs_prefix.cc:409-421 | The own prefix yields a ready OK future. Another prefix is published as a sub-prefix message. An object is pushed to the batcher and nothing else changes. |
| PrefixDispatch.IndexGcsPrefix | getting-started-gke/index_gcs_prefix.cc:365-422 | Without a bucket attribute nothing happens. Otherwise the result is the listing dispatched entry by entry, and exactly the listed objects before the end are pushed. |
| PrefixDispatch.Resolved | getting-started-gke/index_gcs_prefix.cc:425-435 | There is one result per pending future, each the value that future holds. |
| PrefixDispatch.CorrectedReplyAcksIffAllOk | getting-started-gke/index_gcs_prefix.cc:425-435 | With the empty case handled, the message is acked iff every future holds OK. It is nacked iff all have completed and one failed, and it waits while one is pending. |
| PrefixDispatch.WhenAllReplyDiffersOnlyWhenEmpty | getting-started/gke/index_gcs.cc:178-210 | when_all as written behaves like the corrected reply except on an empty vector, where it gives no reply: the accumulator is destroyed with its promise unset, so the continuation's f.get() throws a broken promise before acking. |
| PrefixDispatch.EmptyListingNeverAcked | getting-started-gke/index_gcs_prefix.cc:324-435 | An empty listing yields no futures, and the message is never acked as written. The corrected reply acks it. |
| PrefixDispatch.AckNeedsCommittedRows | getting-started-gke/index_gcs_prefix.cc:421-435 | An ack requires every pushed row to be committed with OK status. |
| PrefixDispatch.OwnPrefixIsReadyOk | getting-started-gke/index_gcs_prefix.cc:411-414 | The listed entry equal to the request's own prefix is a ready OK future and is never re-published. |
| PrefixDispatch.AckNeedsContinuation | getting-started-gke/index_gcs_prefix.cc:394-435 | After a split, an ack requires the continuation message to be published with OK status. |
| IndexFunction.ReadRequestAccepts | getting-started/index_gcs_prefix.cc:89-112 | A JSON event whose message attributes hold a bucket is accepted. The bucket, prefix and start are read from those attributes, and prefix and start are optional. |
| IndexFunction.RejectionsAreLogged | getting-started/index_gcs_prefix.cc:89-103 | A rejected event is logged and returns without an exception iff the content type is wrong, or the message, its attributes or the bucket attribute is missing. |
| IndexFunction.AbsentDataLogged | getting-started/index_gcs_prefix.cc:92-94 | A JSON event without data parses as "{}" and is logged as "missing embedded Pub/Sub message". |
| IndexFunction.PublishStatuses | getting-started/index_gcs_prefix.cc:165-166 | The k-th pending future holds the k-th publish status. |
| IndexFunction.LastFailureIsLast | getting-started/index_gcs_prefix.cc:164-169 | The aggregated status is OK iff every publish succeeded. Otherwise it is the last failure: no later status fails. |
| IndexFunction.LoopStep | getting-started/index_gcs_prefix.cc:119-161 | Handling one more entry within seven seconds keeps the listing loop's invariant: a sub-prefix is published, an object's row is committed. |
| IndexFunction.ListedAllAsWritten | getting-started/index_gcs_prefix.cc:119-162 | A listing handled to its end is handled entry by entry. |
| IndexFunction.ListingFailedAsWritten | getting-started/index_gcs_prefix.cc:121 | An error entry ends the loop with its status. |
| IndexFunction.SplitAsWritten | getting-started/index_gcs_prefix.cc:122-141 | Past the deadline, one continuation message starting from the current entry is published and the loop stops. |
| IndexFunction.CommitFailedAsWritten | getting-started/index_gcs_prefix.cc:154-159 | A failed commit ends the loop with that commit's status. |
| IndexFunction.AggregatePublishes | getting-started/index_gcs_prefix.cc:163-169 | The loop over pending futures yields the last failing publish status, or OK. |
| IndexFunction.IndexGcsPrefix | getting-started/index_gcs_prefix.cc:83-173 | A rejected event publishes and commits nothing. An accepted one is listed as written and ends with the conclusion of its loop. |
| IndexFunction.FailsIffSomePublishFailed | getting-started/index_gcs_prefix.cc:163-172 | After a complete or split listing, the function completes iff every publish succeeded, reporting rows and messages. Otherwise it throws "publishing one or more messages" with the last failure. |
| IndexFunction.OwnPrefixRepublished | getting-started/index_gcs_prefix.cc:144-152 | Unlike the GKE workers, the function republishes its own prefix when the listing returns it. |
| OtelArgs.ParseAction | pubsub-open-telemetry/parse_args.cc:137-151 | Exactly "reject", "block" and "ignore" name a full-publisher action, and the action names the string it was parsed from. |
| OtelArgs.ActionRoundTrip | pubsub-open-telemetry/parse_args.cc:140-145 | Every action is parsed back from its name. |
| OtelArgs.Validate | pubsub-open-telemetry/parse_args.cc:92-150 | A command line is accepted iff both names are given and non-empty, the tracing rate and message count (after defaults) are non-zero, and any publisher action is one of the three names. |
| OtelArgs.ParseArguments | pubsub-open-telemetry/parse_args.cc:27-169 | --help or an empty command line returns the empty result. Otherwise the parse fails exactly when validation does, with its error. A successful result carries the names, the defaulted integers and tracing rate, OpenTelemetry tracing on, and exactly the flow-control and batching options given. |
| OtelArgs.NegativeValuesPass | pubsub-open-telemetry/parse_args.cc:108-115 | Only zero is rejected: a negative tracing rate or message count passes validation. |
| OtelArgs.EmptyProjectReportedFirst | pubsub-open-telemetry/parse_args.cc:102-104 | An empty project id is reported before any other problem. |
| SpeechArgs.LastDot | speech/api/parse_arguments.cc:68-69 | rfind('.') finds the last dot, and finds none iff the path has no dot. |
| SpeechArgs.NoDotNoExtension | speech/api/parse_arguments.cc:68-69 | A path without a dot has an empty extension. |
| SpeechArgs.ExtensionOfSuffix | speech/api/parse_arguments.cc:67-74 | The extension is the lower-cased text from the last dot on. |
| SpeechArgs.ParseArguments | speech/api/parse_arguments.cc:25-92 | A missing path is the parser's error. An empty path or a negative bitrate is rejected with the sample's message, and everything else is accepted. The result keeps the path and the language code ("en" by default). |
| SpeechArgs.ExtensionConfig | speech/api/parse_arguments.cc:76-90 | The extension picks the encoding. It sets the sample rate only for .amr (8000) and .awb (16000), and leaves the language code alone. |
| SpeechArgs.EncodingFromSuffix | speech/api/parse_arguments.cc:61-91 | For any path ending in a dot and a suffix, the encoding and rate are those of the lower-cased suffix, given the bitrate (16000 by default). |
| SpeechArgs.NoExtensionIsLinear16 | speech/api/parse_arguments.cc:76-77 | A path without an extension is LINEAR16 at the given bitrate. |
| Mqtt.SetFlag | iot/mqtt-ciotc/mqtt_ciotc.c:184-226 | A flag sets its own option and no other. |
| Mqtt.GetOpts | iot/mqtt-ciotc/mqtt_ciotc.c:173-268 | The argument loop returns what ParseOpts defines on the whole argument list. |
| Mqtt.ScanKeeps | iot/mqtt-ciotc/mqtt_ciotc.c:183-232 | The flag loop never changes the payload or the address. |
| Mqtt.ParsedOptions | iot/mqtt-ciotc/mqtt_ciotc.c:177-265 | Accepted options have argv[1] as payload and the default address. The client id is projects/…/locations/…/registries/…/devices/… within 256 characters, and the topic is /devices/<id>/events within 256 characters. |
| Mqtt.ScanNeedsIdentity | iot/mqtt-ciotc/mqtt_ciotc.c:183-232 | Without one of the four identity flags the loop never asks for the client id to be computed. |
| Mqtt.NoIdentityFlagFails | iot/mqtt-ciotc/mqtt_ciotc.c:233-267 | A command line without --deviceid, --region, --registryid or --projectid is rejected. |
| Mqtt.ScanPairs | iot/mqtt-ciotc/mqtt_ciotc.c:183-232 | Scanning flag and value pairs applies them in order, and notes whether one names the identity. |
| Mqtt.PairsParse | iot/mqtt-ciotc/mqtt_ciotc.c:173-268 | A message followed by flag and value pairs parses iff some pair names the identity and the client id and topic fit. The result is the defaults with the pairs applied and the two names computed. |
| Mqtt.FlagWithoutValueFails | iot/mqtt-ciotc/mqtt_ciotc.c:184-229 | A flag in last position, with no value, fails the parse. |
| Mqtt.UnknownArgumentSkipped | iot/mqtt-ciotc/mqtt_ciotc.c:183-232 | A trailing argument that is not a flag is skipped. |
| Mqtt.LastValueWins | iot/mqtt-ciotc/mqtt_ciotc.c:184-226 | When a flag is repeated, its last value wins. |
| Mqtt.AbsentFlagKeepsDefault | iot/mqtt-ciotc/mqtt_ciotc.c:184-226 | An option whose flag is absent keeps its value. |
| Mqtt.GetAlgorithmFromString | iot/mqtt-ciotc/mqtt_ciotc.c:88-96 | Exactly "RS256" and "ES256" name an algorithm, and the algorithm names the string it came from. |
| Mqtt.AlgorithmRoundTrip | iot/mqtt-ciotc/mqtt_ciotc.c:88-96 | Every algorithm is read back from its name, and the default "ES256" names ES256. |
| Mqtt.ExpiresAfterOneHour | iot/mqtt-ciotc/mqtt_ciotc.c:77-86 | iat reads back as the current time and exp as one hour later. |
| Mqtt.IntervalBounds | iot/mqtt-ciotc/mqtt_ciotc.c:305-318 | The retry interval stays between 500 and 6000 ms, never shrinks, and is capped from the eighth retry on. |
| Mqtt.TotalSleepCapped | iot/mqtt-ciotc/mqtt_ciotc.c:305-318 | After seven retries the sleep grows by 6000 ms per retry, from 16079 ms. |
| Mqtt.TotalSleepMonotone | iot/mqtt-ciotc/mqtt_ciotc.c:309-310 | The total sleep never shrinks. |
| Mqtt.RetryBudget | iot/mqtt-ciotc/mqtt_ciotc.c:310-314 | The total sleep stays under 900000 ms exactly for the first 155 retries. |
| Mqtt.RetriedSnoc | iot/mqtt-ciotc/mqtt_ciotc.c:307-318 | A "server unavailable" refusal followed by the scheduled sleep keeps the retry record as scheduled. |
| Mqtt.GiveUpTime | iot/mqtt-ciotc/mqtt_ciotc.c:310-314 | The sample gives up after 904079 ms of sleep. |
| Mqtt.ConnectWithRetry | iot/mqtt-ciotc/mqtt_ciotc.c:305-323 | Only code 3 is retried, with the scheduled sleeps. Another failure code ends the loop with that code, success connects, and the loop gives up after exactly 155 sleeps. |

## Left out

- Cloud services (Spanner, Storage, Pub/Sub, Bigtable, Batch, Speech, the MQTT broker) are replies passed in as parameters. Wire formats, gRPC and protobuf encoding are not modelled.
- Protobuf serialisation of Quotes and parsing of the Bigtable cell value are a parser parameter. The TAQ prices and quantities stay text.
- Floating point is not modelled: stod of prices, the average spread in read_rows.cc, the bandwidth figures, and the tracing rate (a `real` that is only compared with 0).
- Mqtt.NextInterval: the 1.5f multiplier is modelled as floor(3x/2). That equals the float product for every interval up to 6000 ms, the only ones the loop reaches.
- Threads and futures are not modelled. std::async commits, promises and the when_all accumulator are reduced to what they deliver: a commit status per flush, and a readiness pass per task in MutationBatching.
- MutationBatching.MutationBatcher.ReapBackgroundTasks: the 10 ms wait_for spin is abstracted as numbered passes, and a task is ready from the pass its finish oracle gives. Wall-clock timing is not modelled.
- The mutex in MutationBatcher is left out: the methods are modelled as running one at a time, which is what the lock guarantees.
- getting-started/gke/index_gcs.cc has no public Flush. Its class is otherwise the same as the one in getting-started-gke/index_gcs_prefix.cc, so one class models both; the public Flush is only called from a commented-out line.
- The AckHandler's behaviour when it is destroyed without ack or nack is library code. PrefixDispatch only states that this code sends no reply.
- The text of a Status after "status=" in thrown messages is not modelled. Only the context prefix and the status value are carried.
- JSON text parsing (nlohmann::json::parse) is not modelled: events arrive as parsed JSON values. json::dump of an object field is a parameter.
- absl::ParseTime is a parameter of UpdateIndex. The range of spanner::MakeTimestamp is not checked.
- A const operator[] on a missing JSON key is undefined behaviour in the source. UpdateIndex models it as a MissingField error.
- GetEnv in getting-started/update/update_gcs_index.cc:31-38 is the same function as GcsIndexing.GetEnv and is not modelled twice.
- CRC-32C is a hash parameter of PopulateBucket.
- The Mersenne Twister is left out: random strings are modelled by their draws.
- Clocks are parameters: the time of each loop iteration, and the current time for the JWT claims.
- Reading the file system is left out: the TAQ file, the job JSON file, and file sizes are inputs.
- pwrite and the downloaded bytes are left out: their results are inputs.
- boost::program_options tokenising is not modelled. OtelArgs, SpeechArgs, Download and ParallelDownload start from the already-parsed option values.
- OtelArgs and SpeechArgs: a missing required option is a single error value, without boost's message text. Download and ParallelDownload carry the text of boost's required_option error.
- OtelArgs.ParseArguments: on the usage path the sample leaves the integer fields uninitialised. The model returns 0 for them, which the source does not promise.
- AvroCache: what the client library does once an exception leaves the subscriber callback is not modelled. Handle only records that one did.
- JWT signing (libjwt and OpenSSL) is not modelled: only the claims and the algorithm choice are.
- The MQTT publish after connecting and the TRACE printing are not modelled.
- The hello service's acceptor, its threads and the Beast HTTP framing are not modelled: one session is a sequence of read results.
- Download.ComputeSlices requires threadCount > 0 or minimumSliceSize > 0. With both non-positive, the source calls back() on an empty vector or never ends.
- ParallelDownload.PlanDownload with asWritten requires a positive slice size for a non-empty object: as written a zero minimum slice size can give slice size 0, and the range loop never ends (ZeroMinimumStalls).
- PopulateBucket.ItemCount requires a positive task size when the object count is positive. As written a task size ≤ 0 never ends the offset loop (NonPositiveTaskSizeNeverEnds), so there is no count to give.
- PopulateBucket.WorkItems requires a positive task size when the object count is positive, for the same reason: that loop does not terminate as written.
- PopulateBucket.Schedule with asWritten requires a positive task size when the object count is positive: the source's loop never ends otherwise (NonPositiveTaskSizeNeverEnds). The corrected checks refuse that case with an error instead.
- PopulateBucket.WorkItems and PopulateBucket.PartitionCounts use unbounded offsets. The C++ `long offset += task_size` can overflow near LONG_MAX, and that overflow is not modelled.
- PopulateBucket.ProcessOneItem requires a non-negative count. The source loop `i != object_count` runs past every int for a negative count.
- ParallelDownload.MoreTasksThanAnnounced: the sample can start more download tasks than the thread count it announces. This is stated as a lemma, not as a defect.
- Standard output and error messages are modelled only where they decide an outcome. Other printing is not modelled.
- The sample programs' main functions are modelled through their exit status.
- Python deployment scripts, the empty scheduler and worker stubs, the OpenMP finsim simulation and the streaming and admin samples are not part of this model.

## Findings

| source | as written | input that shows it | evidently intended | confidence | as-written member | corrected member |
|---|---|---|---|---|---|---|
| bigtable/api/upload_taq_batch.cc:111-113 | The loop tests eof before getline, then parses the line read by the getline that reached end of file. | A file whose last line ends in a newline: the final read gives "" and parse_taq_line("") throws, so the last batch is never uploaded and main returns 1. | Stop when getline fails, so only the lines actually read are parsed. | not executed | TaqUpload.TrailingNewlineFailsUpload | TaqUpload.ReadsTerminatedLines |
| bigtable/api/read_rows.cc:126-150 | commit_row parses the value buffer but does not clear it; only reset_row does. | Two rows "A" and "AA", each one committed chunk: the second row is parsed from the two values concatenated, so its quotes include the first row's. | Clear the buffer once the row is committed. | not executed | ReadRows.CommitKeepsPreviousRow | ReadRows.RowParsedFromOwnValues |
| gcs-parallel-download/gcs_parallel_download.cc:55-60 | The emptiness check skips every option that is present, so it only reads the absent ones. | `--bucket ""` with an object and a destination passes the check. | Reject present options whose value is empty. | not executed | ParallelDownload.EmptyBucketAccepted | ParallelDownload.CheckOptionsAccepts |
| gcs-parallel-download/gcs_parallel_download.cc:68-128 | A zero --minimum-slice-size is accepted. | A 1-byte object with 2 threads and minimum 0 gets slice size 0, so the offset loop never advances. | Reject a zero minimum slice size, as the thread count is rejected. | not executed | ParallelDownload.ZeroMinimumStalls | ParallelDownload.CheckedSliceAdvances |
| gcs-fast-transfers/download.cc:70-71 | The call is named "pwrite()", and the message adds "()" again. | A failing pwrite reports "Error in pwrite()() - …". | "Error in pwrite() - …". | not executed | Download.DoubledParentheses | Download.CallNamedOnce |
| populate-bucket/populate_bucket.cc:136-139 | The draw range is [0, sizeof(alphabet) - 1] = [0, 36], and alphabet[36] is the terminating NUL. | The draw 36 puts a NUL character into the object prefix. | Draw from [0, 35]. | not executed | PopulateBucket.NulCharacterDrawn | PopulateBucket.RandomAlphanum |
| populate-bucket/populate_bucket.cc:199-218 | --task-size is never checked before the offset loop. | --object-count=10 with --task-size=0: the offset stays 0, so the loop never ends. | Refuse a task size below 1 with the other option checks. | not executed | PopulateBucket.NonPositiveTaskSizeNeverEnds | PopulateBucket.ScheduleFailure |
| populate-bucket/populate_bucket.cc:178 | use_hash_prefix is encoded from object_count, not from the item's own flag. | An item of 1000 objects without the hash prefix is parsed back with the hash prefix. | Encode wi.use_hash_prefix. | not executed | PopulateBucket.HashFlagLost | PopulateBucket.WorkItemRoundTrip |
| getting-started/update/update_gcs_index.cc:42-112 | temporaryHold and eventBasedHold use the int64 extractor, which reads the field as a string. | An event whose temporaryHold is the JSON boolean true makes value<string> throw, so no row is written. | Read the hold flags as JSON booleans into BOOL columns. | not executed | UpdateIndex.HoldFlagRejected | UpdateIndex.CorrectedHoldStored |
| getting-started-gke/index_gcs_prefix.cc:324-435 | Over no futures, no continuation keeps the when_all accumulator alive. It is destroyed with its promise unset, so the future holds a broken promise and the continuation's f.get() throws before acking. | A prefix whose listing is empty: the message is neither acked nor nacked. | Complete at once on an empty vector, so the message is acked. | not executed | PrefixDispatch.EmptyListingNeverAcked | PrefixDispatch.CorrectedReplyAcksIffAllOk |
