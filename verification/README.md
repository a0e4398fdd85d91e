# CPE dictionary ingestion — a Dafny model

This project models the core of a service that mirrors the NVD CPE (Common
Platform Enumeration) dictionary into a document store. The service does four
things:

- It downloads the dictionary archive with a retry policy (`utility/downloader.py`).
- It streams the feed's `matches` entries into batches of normalised records (`utility/parser.py`).
- It upserts each record by its `cpe_id` and counts inserts, updates and errors in a process-wide `stats` record (`utility/crud.py`).
- It runs the whole update as one wrapped call: reset the stats, download, extract, process, then record when the run started and how long it took (`utility/endpoints.py`).

Modules:

- `Wrappers`: `Option` and `Result`.
- `CpeName`: a simplified CPE 2.3 name (NISTIR 7695). It covers:
  - the formatted-string binding (section 6.2) with its parser and formatter;
  - the URI binding (section 6.1.2) used as the record key;
  - the `part`-based classification.
- `Records`: the record the parser builds and the store keeps.
- `Parser`: `parse_json_in_batches`. The entry stream is a sequence. The name parser is a function parameter, so the batcher is proved for any parser; `CpeName.ParseCpe` is one instance.
- `Crud`: the store and the statistics. This covers `create_or_update_cpe`, `reset_stats`, `get_stats` and `record_stats`, plus a fold that applies the upserts of `process_cpes` one record at a time. The code runs them concurrently; "Left out" says what the fold does not capture.
- `Downloader`: the tenacity retry policy on `download_file`, over abstract attempt outcomes.
- `Endpoints`: `download_and_extract`, `process_cpes` and `update_cpes`, with the step trace of a run and the `pathlib` stem rule.

Everything outside the model is a parameter:

- each download attempt's response;
- whether extraction succeeds;
- what the feed parse returns;
- each store write and Kafka send;
- the two clock readings.

Behaviours of the code that the model keeps, including some a reader might not expect:

- A stream failure inside `parse_json_in_batches` is caught and logged (utility/parser.py:66-67). It is not a hard error for the consumer. Batches already yielded stand and the partial batch is lost.
- A failed download is not counted in `stats["errors"]`. Only `create_or_update_cpe` increments the counters (utility/crud.py:48-66); `reset_stats` only zeroes them.
- In the model, upserts are applied one record at a time, in list order. So a feed of three records in which two share a key counts two inserts and one update (`Crud.DuplicateKeyExample`). In the code the upserts run concurrently (utility/endpoints.py:38-39). If a key repeats among upserts in flight together, how many inserts and updates it counts depends on the order the database applies the writes.
- `raise_for_status()` raises for every status of 400 or more. A status below 400 counts as a success, not only a 2xx one.
- The record's key field is `cpe_id`, as the parser fills it (utility/parser.py:52) and as the store queries it (utility/crud.py:44). The schema in `utility/schemas.py:21-36` declares `cpe_name` instead.
- `create_or_update_cpe` ends in `UnboundLocalError` when the write raises, because `result` was never bound (utility/crud.py:68). The model keeps this as `Crud.Returned.UnboundResult`. In the code, `asyncio.gather` passes on the first such error at once, so `process_cpes` raises while other upserts may still be running. The model reports the failure after folding every upsert.
- `utility/endpoints.py:15,32` imports and calls `parse_xml`, which `utility/parser.py` does not define. The model treats the feed parse as an input (`World.parsed`).

## Model

| member | source | states |
|---|---|---|
| CpeName.ParseCpe | utility/parser.py:24-28 | A name the parser accepts is well formed (valid part, eleven non-empty values free of `:` and `~`). Formatting it again gives back exactly the parsed string, and its URI form is its URI binding. |
| CpeName.FormatParse | utility/parser.py:25 | Round trip: parsing the formatted string of any well-formed name gives that name back, with its URI binding. |
| CpeName.ParseCpeExactly | utility/parser.py:25 | The parser accepts a string with attributes `a` if and only if `a` is well formed and the string is `a`'s formatted binding. |
| CpeName.Classify | utility/parser.py:30-37 | The type is software iff the part is `a`, operating_system iff `o`, hardware iff `h`, and other for every other part; exactly one applies. |
| CpeName.TrimColons | utility/parser.py:52 | The URI binding drops trailing empty components: the result is a prefix of its input, does not end in a colon, and only colons were removed. |
| CpeName.UriBinding | utility/parser.py:52 | Its own contract gives the key's shape only: it starts with `cpe:/` and, trailing empty components being trimmed, does not end in a colon after that prefix. That the key identifies the name is proved separately by `CpeName.UriRoundTrip` and `CpeName.UriKeyIdentifiesName`. |
| CpeName.UriRoundTrip | utility/parser.py:52 | The key `as_uri_2_3()` returns identifies the name: an independent decoder (restore the trimmed components, split at colons, unpack the `~`-packed edition, read empty as ANY) gives back every attribute of a well-formed name from its URI binding. |
| CpeName.UriKeyIdentifiesName | utility/parser.py:52 | Two well-formed names with the same URI binding are the same name, so the "unique ID" is unique. |
| CpeName.UriDeterminesType | utility/parser.py:30-52 | For a well-formed name, the type read back from the first component of the URI key equals the type the parser assigns. |
| CpeName.SameUriSameType | utility/parser.py:30-52 | Two well-formed names with the same URI key have the same type. |
| CpeName.WidgetIsWellFormed | utility/parser.py:25 | The example application name `acme:widget:1.0` is a well-formed name. |
| Records.MakeRecord | utility/parser.py:39-54 | The record's `cpe_id` is the name's URI form, its eleven attribute fields are the name's attributes, `cpe_version` equals `version`, and `type` is the classification of the part. |
| Records.KeyGivesType | utility/parser.py:39-54 | The record built from a library object that `CPE(s)` could produce carries its type in its key. |
| Records.KeyIdentifiesRecord | utility/crud.py:43-47 | Two consistent records keyed by the URI bindings of well-formed names that share a key are the same record, with the same attributes and type. So an upsert under a key only ever rewrites that name's record. |
| Records.TypeNameIdentifiesType | utility/parser.py:30-37 | The four strings stored in `type` (`software`, `operating_system`, `hardware`, `other`) are distinct, so the string names the class the parser assigned. |
| Parser.ProcessEntry | utility/parser.py:20-54 | An entry is skipped iff its `cpe23Uri` is missing or empty. It is logged iff the name is present and does not parse, and then its URI is what is logged. Otherwise it yields the record built from the parsed name. |
| Parser.AcceptedSnoc | utility/parser.py:19-56 | The records and log lines of a feed ending in entry `e` are those of the rest followed by `e`'s own. |
| Parser.SkippedEntryHasNoEffect | utility/parser.py:20-22 | An entry with a missing or empty name, anywhere in the feed, changes neither the records nor the log produced from the other entries. |
| Parser.UnparsableEntryIsLoggedAndSkipped | utility/parser.py:24-28 | An unparsable entry adds exactly its URI to the log at its place, and the records of the entries before and after it are still produced. |
| Parser.AcceptedConsistent | utility/parser.py:39-54 | Every produced record is consistent (`cpe_version` = `version`, type from part). When the name parser yields only well-formed names, every record's key is the URI binding of its attributes. |
| Parser.PushYieldsAtSize | utility/parser.py:56-60 | Appending a record yields the current batch, with the record, exactly when that brings it to the batch size, and then restarts it empty. Otherwise the record just joins the batch. A batch size below one yields every record on its own. |
| Parser.Push | utility/parser.py:56-60 | Appending a record adds exactly that record after everything already batched: the yielded batches followed by the current one gain `[r]` at the end. Either nothing is yielded, or the current batch with the record is yielded and the current batch restarts empty. The log is untouched. |
| Parser.Consume | utility/parser.py:19-60 | One loop iteration: the yielded batches followed by the current one gain exactly the records the entry emits, and the log gains exactly the URI the entry causes to be logged, if any. |
| Parser.PushHolds | utility/parser.py:56-60 | Appending an accepted record, and yielding the batch once it reaches the batch size, keeps the invariant: the yielded batches plus the current one are the accepted records, yielded batches are full and the current one is not. |
| Parser.ConsumeAccounts | utility/parser.py:19-60 | One loop iteration over an entry keeps the yielded and current batches equal to the records accepted so far and the log equal to the URIs rejected so far. |
| Parser.ParseJsonInBatches | utility/parser.py:15-67 | No yielded batch is empty or larger than the batch size, and all but the last are full. On a normal end the batches concatenate to exactly the accepted records in input order. On a stream failure only full batches are yielded, they form a prefix of the accepted records, and less than one batch is lost without an error reaching the consumer. The log is exactly the unparsable URIs in order, and completion is reported iff the stream did not fail. |
| Parser.NameThenEmpty | utility/parser.py:20-56 | A parsable name followed by an empty name yields exactly the record of the first. |
| Parser.TwoEntryFeed | utility/parser.py:15-67 | The formatted string of `acme:widget:1.0` followed by an empty entry gives one software record, keyed by the name's URI binding and carrying its attributes. |
| Crud.CreateOrUpdateCpe | utility/crud.py:39-68 | A successful write maps the key to the record and leaves every other key alone. It counts an insert when the key was absent and an update otherwise. A failing send then adds one error and keeps that count. A failing write leaves the store and the insert/update counts unchanged, adds one error and ends in the unbound-`result` error. The returned `upserted_id` is set iff the key was new. |
| Crud.UpsertTwice | utility/crud.py:43-51 | Upserting the same record twice leaves the store as after the first call; the second call counts as an update and reports no upserted id. |
| Crud.ResetStats | utility/crud.py:71-79 | Reset sets `inserted`, `updated` and `errors` to 0 and `last_called` and `durations` to None, and leaves the store untouched. |
| Crud.GetStats | utility/crud.py:82-83 | It has no contract of its own: it reads the process-wide stats record and changes nothing. What it reports after a reset is stated by `Crud.ResetForgetsCounts`. |
| Crud.ResetForgetsCounts | utility/crud.py:71-83 | Whatever the counters and timing fields held, `get_stats()` right after `reset_stats()` returns exactly the initial stats record, and resetting twice is the same as resetting once. |
| Crud.HumanDuration | utility/crud.py:100-107 | The unit is hours iff the elapsed time is at least 3600 s, minutes iff it is between 60 and 3599 s, and seconds iff it is under 60 s. The number shown is the whole count of that unit. |
| Crud.RecordStats | utility/crud.py:86-114 | The wrapped call's exception becomes a `None` result, and a normal return passes its value through. Either way `last_called` is the start time and `durations` is the human duration. Counters and store are left as the call left them. |
| Crud.UpsertAll | utility/endpoints.py:36-39 | One upsert per record, in order. The fold raises iff some write raised. Inserts plus updates grow by the number of successful writes and errors by the number of failed writes or sends. Timing fields are untouched. |
| Crud.StoreAfterUpserts | utility/crud.py:43-47 | After a sequence of upserts the store's keys are the old keys plus the written keys. Each written key holds the last record written under it, and every other key keeps its old record. |
| Crud.AllWritten | utility/crud.py:43-51 | When every write succeeds, the written keys are exactly the records' keys and every record counts once. |
| Crud.LastWrittenAllOk | utility/crud.py:43-47 | When every write succeeds, the record left under a key does not depend on the send outcomes or on which run performed the writes. |
| Crud.InsertedCountsNewKeys | utility/crud.py:48-51 | Inserts grow by exactly the number of distinct written keys that were absent from the store before, however often a key repeats. |
| Crud.NoErrors | utility/crud.py:54-66 | No error is counted over a run of upserts iff every write and every send in it succeeded. |
| Crud.CountsFromReset | utility/endpoints.py:36-39 | From reset stats with every write and send succeeding, inserts plus updates equal the number of records, no error is counted and the fold does not raise. |
| Crud.ApplyTwiceIdempotent | utility/crud.py:43-51 | Applying the same records again with all writes succeeding leaves the store unchanged, inserts nothing and counts every record as an update. |
| Crud.SecondPassKeepsStore | utility/crud.py:43-47 | A second successful pass over the same records leaves the store exactly as the first pass left it. |
| Crud.DuplicateKeyExample | utility/crud.py:43-51 | Three records, the first and third sharing a key, upserted into an empty store: two inserts, one update, and the shared key holds the third record. |
| Downloader.Attempt | utility/downloader.py:59-75 | An attempt saves the body iff a response arrived with status below 400. It raises a `ClientError` iff the status is 400 or more or the client failed, and raises something else iff a local failure occurred. |
| Downloader.WaitAfter | utility/downloader.py:56 | The wait after attempt n is `2^(n-1)` seconds clamped to the range 4 to 10. |
| Downloader.WaitsGrow | utility/downloader.py:56 | Waits never decrease from one retry to the next. |
| Downloader.WaitSchedule | utility/downloader.py:56-57 | The four waits the policy can use are 4, 4, 4 and 8 seconds. |
| Downloader.RetryFrom | utility/downloader.py:56-58 | At most 5 attempts are made. Every attempt before the last raised a `ClientError` and was followed by the clamped wait for its number. |
| Downloader.RetryOutcome | utility/downloader.py:56-75 | The last attempt decides the result: its saved body, its non-`ClientError` exception re-raised as is, or `RetryError` iff it raised a `ClientError`. |
| Downloader.RetryLogged | utility/downloader.py:56-74 | `RetryError` comes only at the fifth attempt. Every `ClientError` attempt is logged, so the log count is the number of attempts, less one when the last attempt saved the body or raised something else. |
| Downloader.DownloadFile | utility/downloader.py:56-59 | Between 1 and 5 attempts, one wait fewer than attempts, each wait between 4 and 10 seconds. |
| Downloader.SucceedsAfterFailures | utility/downloader.py:56-75 | If the first j attempts (j < 5) raise `ClientError`s and attempt j saves the body, the call returns that body after j+1 attempts with j errors logged. |
| Downloader.FiveClientErrors | utility/downloader.py:56-58 | Five `ClientError`s in a row end in `RetryError` after 5 attempts, 5 log lines and waits of 4, 4, 4 and 8 seconds. |
| Downloader.OtherErrorNotRetried | utility/downloader.py:58 | A first attempt that fails with anything but a `ClientError` propagates that failure after one attempt, with no wait and no log line. |
| Downloader.QuietDownload | utility/downloader.py:56-75 | The download logs nothing and returns the body iff the first attempt gets a response below 400 and saves it. |
| Downloader.ErrorStatusIsRetried | utility/downloader.py:68 | A first response with status 400 or more is retried after a 4 s wait, and a good second response's body is the result. |
| Endpoints.Stem | utility/endpoints.py:27 | `PurePath.stem`: a prefix of the name, equal to the whole name exactly when there is no last dot that is neither the first nor the last character. |
| Endpoints.Suffix | utility/endpoints.py:27 | `PurePath.suffix`: the stem followed by the suffix is the name, and the suffix is empty or a dot followed by at least one character with no further dot. |
| Endpoints.StemSuffix | utility/endpoints.py:27 | A name is its stem followed by its suffix. The suffix is empty, or a dot followed by at least one character with no further dot, and then the stem is non-empty. |
| Endpoints.StemOfDotted | utility/endpoints.py:27 | The stem of `base.ext` is `base` and its suffix is `.ext` when `base` is non-empty and `ext` is a non-empty run without dots. |
| Endpoints.ArchiveStem | utility/endpoints.py:48 | The stem of `official-cpe-dictionary_v2.3.xml.zip` is `official-cpe-dictionary_v2.3.xml`. |
| Endpoints.DownloadAndExtract | utility/endpoints.py:23-27 | The stats are reset and the store is untouched. The trace is reset, then download, then extract only if the download succeeded. A download failure raises its error. The result is `extract_to / stem(zip_path)` iff both the download and the extraction succeed. |
| Endpoints.ProcessCpes | utility/endpoints.py:30-39 | The feed is parsed first. A parse failure changes nothing. Otherwise there is one upsert step per parsed record, in order, and the state is the fold of those upserts. It fails with the parse error iff the parse failed. After a successful parse it raises iff some upsert raised, and otherwise returns normally. |
| Endpoints.EmptyFeedNoUpsert | utility/endpoints.py:33-34 | An empty feed performs no upsert and leaves store and counters unchanged. |
| Endpoints.OneUpsertPerRecord | utility/endpoints.py:36-39 | Exactly one upsert step per parsed record, in order. Counters grow by one insert or update per successful write and one error per failed write or send. |
| Endpoints.UpdateCpes | utility/endpoints.py:42-50 | The run's steps follow the fixed order reset, download, extract, parse, upserts, with the download of the archive path first after the reset. `last_called` and `durations` are always set. When the download, the extraction and the parse succeed, the store and the three counters are those the upserts leave when folded over the reset stats. Otherwise the store is unchanged and the counters are 0. The `record_stats` wrapper swallows and logs an exception (utility/crud.py:93-95) iff the download, the extraction, the parse or some write fails. The run's error lines number the download handler's lines (utility/downloader.py:73), plus one per error `create_or_update_cpe` counts, each of which it logs (utility/crud.py:54-66), plus the wrapper's line. |
| Endpoints.OrderedThenProcess | utility/endpoints.py:49-50 | `download_and_extract` runs strictly before `process_cpes`: their concatenated traces are in run order. |
| Endpoints.ProcessesExtractedFeed | utility/endpoints.py:44-49 | After a successful download and extraction, the archive `downloaded/official-cpe-dictionary_v2.3.xml.zip` is extracted into `downloaded/extracted_files`, and the file parsed is `downloaded/extracted_files/official-cpe-dictionary_v2.3.xml`. |
| Endpoints.DownloadFailureStopsRun | utility/endpoints.py:42-50 | A failed download ends the run after two steps, with the store unchanged and the counters reset. The wrapper swallows the failure and logs it rather than raising it. |
| Endpoints.CleanRunCounts | utility/endpoints.py:42-50 | A run whose download, extraction, parse and every write and send succeed counts inserts plus updates equal to the number of parsed records and no errors. The wrapper swallows nothing, and the only error lines logged are those of download attempts the retry recovered from. |
| Endpoints.QuietRun | utility/endpoints.py:42-50 | A run logs no error line at all iff the first download attempt saves a response below 400, the extraction and the parse succeed, and every write and every send succeeds. |
| Endpoints.RunErrorsCounted | utility/endpoints.py:36-39 | After a successful download, extraction and parse, the run's `errors` counter is the number of upserts whose write or send raised. |

## Left out

- The HTTP exchange, SSL context, random user agent and file write in `download_file`: I/O. Each attempt's outcome is an input (`Downloader.AttemptEvent`), and the one-second sleep after a save is not modelled.
- `extract_zip` (`utility/extractor.py` is not part of this model): only whether it returns normally is an input.
- `parse_xml`: it does not exist in `utility/parser.py`, so the list it would return, or its failure, is an input.
- The `asyncio.Semaphore(10)` and `asyncio.gather` fan-out: concurrency. Up to ten upserts run at once in the code. The model folds them one at a time in list order, which leaves two things out. First, for a key that repeats among upserts in flight together, the insert/update split and the record left under the key depend on the order the database applies the writes. Second, `gather` passes on the first exception at once, so `record_stats` records `durations` and `update_cpes` returns while the remaining upserts still run; the model folds every upsert before the wrapper records anything.
- The Kafka producer (`utility/kafka_producer.py`), the Motor client and the settings module: foreign calls. A send and a write are inputs that succeed or raise.
- CpeName.ParseCpe: a simplified stand-in for the `cpe` library, which is not part of this model. It splits on colons with no escape handling, so a quoted colon is rejected rather than read as part of a value. It requires eleven non-empty values and accepts only the parts `a`, `o`, `h` and `*`. It rejects an unquoted `~`, which section 6.2 of NISTIR 7695 allows only quoted. Its URI binding (`CpeName.UriBinding`) does no percent-encoding. The batcher and the store are proved for any name parser. The URI lemmas (`CpeName.UriRoundTrip`, `CpeName.UriKeyIdentifiesName`, `CpeName.UriDeterminesType`, `CpeName.SameUriSameType`) and `Records.KeyGivesType` and `Records.KeyIdentifiesRecord` are about this simplified binding. So are the worked examples.
- Exceptions while building a record in `parse_json_in_batches` (utility/parser.py:30-54): the classification tests, the `get_*()[0]` accessors, `as_uri_2_3()` and the `CPECreate` validation run outside the per-entry `try`. If one raised, the whole generator would stop and lose the partial batch, as on a stream error. The model always builds the record for a parsed name. It reaches this outcome only as a feed cut off before that entry (`Feed.failsAfter`).
- The ijson/aiofiles streaming: the `matches` items are a finite sequence. A stream error is modelled as occurring after the delivered items. A mid-stream error is the same feed truncated there.
- Crud.CreateOrUpdateCpe: a write that raises is modelled as leaving the store unchanged. utility/crud.py:43-47 does not promise this: a network timeout after the server applied the write raises too. The model does not cover that case.
- `Crud.HumanDuration`: whole seconds instead of floating-point seconds, and no `%.2f` rendering. The unit chosen is the same, because `divmod` on the float gives the same comparisons at whole-unit boundaries.
- `Crud.RecordStats`: `last_called` is the start time in seconds, not the Asia/Tehran formatted timestamp. `time.time()` readings are parameters.
- `get_cpe` and the `/health_check`, `/version`, `/readme`, `/detail` and `/stats` routes: I/O and UI. `get_stats` itself is modelled (`Crud.GetStats`, used in `Crud.ResetForgetsCounts`).
- `PyObjectId` validation in `utility/schemas.py`: it relies on `bson`.
- The log messages themselves: the model keeps which URIs the parser logs and how many error lines a run logs (`Endpoints.UpdateRun.errorLogs`), not their text or their order.
