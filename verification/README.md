# A model of azure-storage-file-go

This project models the parts of the Azure Storage File SDK for Go where most can go wrong, and proves what they promise.

**Parallel transfers.** `Ranges.dfy` cuts a transfer into chunks and prints and reads byte ranges. `TransferPool.dfy` is the
goroutine pool of `doBatchTransfer` as a transition system: a bounded operation channel, workers, a response channel, and a
caller who may leave early. `RetryReader.dfy` is the body reader that asks again for the rest of a file, as a class, with
other goroutines closing it at any moment. `Download.dfy` puts pool and reader together at the level of single body reads;
`BufferDownload.dfy` does it in place, on a real buffer with an operation object a worker, and refines it read by read. `Upload.dfy` has a server that may execute a
write late or more than once. `Progress.dfy` has the progress closures, the lock they share and their steps one by one.

**Retries.** `RetryPolicy.dfy` is the retry loop with its contexts and bodies as objects, for any secondary host and for the
empty one this version ships; `Backoff.dfy` is the arithmetic of its waits, in int64 with wrap-around.

**URLs and shared access signatures.** `Query.dfy` is application/x-www-form-urlencoded text (section 5 of the WHATWG URL
Standard over section 2.1 of RFC 3986) as Go reads it. `SasFormats.dfy` and `SasParams.dfy` are the SAS parameters,
`FileUrl.dfy` is `FileURLParts`. `UrlRoundTrip.dfy` says what one reading of a printed URL gives back, `UrlRestored.dfy`
exactly which parts every reading gives back, `UrlPlaces.dfy` in which part each value of a query is found, and
`UrlRebuilt.dfy` when a query taken apart and put together has the parameters it had.
`Permissions.dfy` and `SasSigning.dfy` are the signing of a SAS and the check a service makes from the query alone.
`SharedKey.dfy` has the canonical strings a shared key signs. `Sorting.dfy` has the order Go sorts strings in and the
uniqueness of a sorted permutation, which they rest on.

**Validation.** `Validation.dfy` is the constraint-tree validator against a declarative reading of the tree,
`ServiceProperties.dfy` what it lets through for `SetProperties`.

`Text.dfy` holds byte strings and decimal numerals.

Go's strings are sequences of bytes here (`Text`). The standard library is that of Go 1.17 on, where releases differ: a
segment of a query with a semicolon is malformed, and a comma may stand before a fraction of a second. Where Go ranges over
a map in no particular order, methods pick any order, and statements hold for all of them.

## What the code does not keep

Nine promises turned out to depend on the input. For each the exact condition is proved.

- A snapshot is printed without escaping. Every reading of a printed URL gives its parts back if and only if path and unparsed
  parameters are canonical and the snapshot has no `&`, `;`, `%` or `+`, or else does no harm and is named by the unparsed
  parameters too (`UrlRestored.UrlReturns`). `a+b` is lost (`UrlRoundTrip.UncleanSnapshotLost`), `%` can be kept
  (`UrlRestored.UncleanSnapshotKept`).
- The snapshot is read under any spelling of its name but deleted under the lower-case one only; of several values of one
  name only the first is read; and an empty value is not printed. Every value of a query is found in exactly one part if and
  only if the lower-case snapshot has one value, not empty, and no other spelling, or else is missing and all spellings
  begin with an empty value; and each SAS parameter is there once, with a value that is not empty and prints as it reads
  (`UrlPlaces.EveryValueLands`). Otherwise a value may be nowhere (`UrlPlaces.SnapshotValueLost`,
  `UrlPlaces.EmptyValueLost`).
- A snapshot that is set, or taken away, is read back in every order of the map if and only if no other spelling in the URL
  says otherwise, and it is clean or none, or else does no harm and is named in another spelling already
  (`UrlRestored.WithSnapshotWins`, `UrlRestored.MixedCaseLoses`). A query taken apart and put together has the same
  parameters if and only if every name fits with every snapshot that may be read (`UrlRebuilt.QueryRebuilt`,
  `UrlRebuilt.CleanRebuilt`).
- SAS parameters that were encoded, parsed and encoded again are the same if and only if no time is cut down to the zero
  time by its layout (`SasParams.EncodeStable`). A start one nanosecond after the zero time is signed, and then lost
  (`SasSigning.EarlyIsSigned`, `SasSigning.EarlyStartLost`).
- The canonicalized headers depend on map order if and only if headers with one name up to case and blanks differ in
  their values (`SharedKey.HeadersOrderFree`, `SharedKey.CollidingHeaders`).
- A transfer of size zero plans a chunk of count zero unless the chunk size is one (`Ranges.PlanChunks`), and that is asked
  for without a range and answered with the whole file (`Ranges.EmptyChunkMeansAll`); both callers return first.
- `doBatchTransfer` without parallelism waits for ever; both callers replace zero by five (`TransferPool.StartsIffParallel`).
- A wait is between zero and the cap for every jitter if and only if the wrapped int64 product is not negative and 1.3 times
  it is at most 2^63 (`Backoff.NeverNegative`). At the defaults that is so for the first 31 primary tries, the 40th, 44th,
  49th, 50th and 52nd, and no others (`Backoff.DefaultDelays`); the wait before the 33rd, and every one from the 54th on, is
  negative whatever the jitter (`Backoff.WaitTurnsNegative`).
- A nil error comes back with a response that is not wrapped, drained and closed already, if and only if all tries were used
  and the last was answered 404 by a secondary while the caller's context was alive (`RetryPolicy.Do`). The number of tries
  is even then (`RetryPolicy.SecondaryIsEven`), and for every even number the policy has such a run
  (`RetryPolicy.ClosedResponse`); with the secondary host that is shipped it has none (`RetryPolicy.DoAndClose`).

## Model

| member | source | states |
|---|---|---|
| Ranges.ToRangeRoundTrip | azfile/zc_util_validate.go:35-43 | a byte-range parser (section 2.1 of RFC 7233) recovers offset and count of every printed range; only a count of zero is open-ended |
| Ranges.ServeRange | azfile/zc_util_validate.go:24-43 | a server that honours the header answers with exactly the part asked for, and refuses an offset past the end |
| Ranges.PlanChunks | azfile/highlevel.go:272-303 | the submission loop: the chunks tile the transfer, none is empty or longer than the chunk size, all but the last are full, no int64 overflows; a transfer of size zero plans one chunk of count zero, or none if the chunk size is one |
| Ranges.TilesDisjoint | azfile/highlevel.go:291-303 | two chunks share no byte and none reaches past the transfer |
| Ranges.TilesCover | azfile/highlevel.go:291-303 | every byte of the transfer lies in some chunk |
| Ranges.EmptyChunkMeansAll | azfile/zc_util_validate.go:24-43 | offset and count zero give no Range header, and the answer is the whole content; printed as a header they would be read as "from the start to the end" |
| TransferPool.StepInv | azfile/highlevel.go:279-314 | every step of every goroutine keeps the pool's invariant: each submitted chunk in exactly one place, the collected results nil until the return |
| TransferPool.StepMoves | azfile/highlevel.go:279-314 | only a submission adds a chunk, only a worker taking it begins it, nothing else moves chunks in or out |
| TransferPool.OneWorkerPerChunk | azfile/highlevel.go:279-289 | no two workers hold the same chunk, and a chunk that is held is nowhere else |
| TransferPool.SendNeverBlocks | azfile/highlevel.go:274-285 | a worker can always send its result, also when the caller has left |
| TransferPool.MeasureFalls | azfile/highlevel.go:279-314 | every step but one inside an operation lowers the measure |
| TransferPool.NeverStuck | azfile/highlevel.go:279-314 | with a worker, something can happen until the caller is back and every goroutine has ended: no deadlock, no leak |
| TransferPool.StartsIffParallel | azfile/highlevel.go:273-300 | the pool can make its first step if and only if there is parallelism |
| TransferPool.RunInv | azfile/highlevel.go:270-315 | the invariant holds in every state of every run |
| TransferPool.RunsEnd | azfile/highlevel.go:270-315 | a run has at most five steps a chunk, one a worker and two, apart from steps inside operations |
| TransferPool.ExecutedAtMostOnce | azfile/highlevel.go:279-303 | over a whole run no chunk is begun twice |
| TransferPool.ReturnMeans | azfile/highlevel.go:306-314 | nil is returned if and only if every chunk ran once and succeeded; an error is the result of a chunk that was executed |
| RetryReader.RetryReader.constructor | azfile/zc_retry_reader.go:76-95 | a new reader stands at the start of its request, with nothing handed out and at most its first response open |
| RetryReader.RetryReader.Read | azfile/zc_retry_reader.go:103-158 | with Close called by others at any moment: bytes read are the file's next ones, what was delivered and what is left stay the whole request, only the current response is open; the log of a Read says exactly which GETs and body reads it made and what they came back with: every GET asks for exactly what is left, and of a bounded reader never for everything up to the end; failures are numbered, and the Read ends with the first that is not retried, a failed GET, or a delivery |
| RetryReader.WhichAreRetried | azfile/zc_retry_reader.go:143-157 | a failure of the network is retried as long as retries are left, so that a Read that returns one, no GET failing, made exactly one body read more than retries are allowed; another error is not retried, while retries are left, if and only if early closes are errors or its text does not end in "read on closed response body" |
| RetryReader.RetryReader.Turn | azfile/zc_retry_reader.go:104-156 | one turn of the loop: what it delivers or logs, and when it ends the Read |
| RetryReader.RetryReader.EnsureResponse | azfile/zc_retry_reader.go:111-122 | a GET is made only without a response, for what is left |
| RetryReader.RetryReader.Get | azfile/url_file.go:119-125 | a GET of what is left, answered with what is left or with any error |
| RetryReader.RetryReader.Advance | azfile/zc_retry_reader.go:131-137 | moving offset and count along hands over a prefix of what was left and leaves the rest |
| RetryReader.RetryReader.GiveUp | azfile/zc_retry_reader.go:138-150 | the failed stream is closed and forgotten, the failure is notified if anyone listens |
| RetryReader.RetryReader.Close | azfile/zc_retry_reader.go:178-185 | closes the current response and no other |
| RetryReader.RetryReader.CloseBetweenReads | azfile/zc_retry_reader.go:178-185 | after a Close between two Reads no body that was ever installed is open |
| RetryReader.RetryReader.DeliveredIsContent | azfile/zc_retry_reader.go:131-137 | what all Reads delivered is the file from the first offset to the cursor |
| RetryReader.RetryReader.NothingLeft | azfile/zc_retry_reader.go:106-109 | at the end everything asked for was delivered |
| RetryReader.LogTurn | azfile/zc_retry_reader.go:104-157 | turn by turn the bounds and the numbering of a Read's log are kept |
| RetryReader.RemainingAfter | azfile/zc_retry_reader.go:131-137 | consuming bytes and moving offset and count leaves the rest, and a bounded count never turns into "to the end" |
| Download.StepKeepsInv | azfile/highlevel.go:178-211 | every step of every worker, failing reads included, keeps each chunk filled as far as it was read and the rest of the buffer alone |
| Download.OtherChunksKeep | azfile/highlevel.go:200 | a Read into one chunk leaves the other chunks and the bytes past the file alone |
| Download.TurnIsStep | azfile/zc_retry_reader.go:104-157 | what one turn of the reader's loop ensures, on the rest of a chunk, is one of the steps of a download: a retry, a delivery or the end of the operation |
| Download.InvIsCorrect | azfile/highlevel.go:178-211 | in every state of a download the bytes past the file are unchanged, and once nil was returned the buffer holds the file |
| Download.DownloadIsCorrect | azfile/highlevel.go:178-211 | for every interleaving and every schedule of failing reads: after a nil return the buffer holds the remote file, and bytes past it are unchanged |
| Download.ErrorMeans | azfile/highlevel.go:178-211 | for every interleaving: an error is returned only if it is that of an operation that ended its chunk short, and nil only if no operation did |
| Download.DistanceFalls | azfile/highlevel.go:178-211 | every step, body reads included, brings a download closer to its end |
| Download.DownloadsEnd | azfile/highlevel.go:178-211 | a bound on the steps of any run: per chunk, per worker, and body reads per byte and chunk by the retries allowed |
| Download.DownloadNeverStuck | azfile/highlevel.go:178-211 | a download in which nothing can happen has returned and left no goroutine |
| BufferDownload.Body | azfile/url_file.go:105-127 | the body of a chunk's response: the response itself without retries, otherwise a reader at the chunk's start that holds it |
| BufferDownload.Operation.constructor | azfile/highlevel.go:182-200 | an operation starts with nothing of its chunk read, on objects of its own |
| BufferDownload.Operation.Step | azfile/highlevel.go:200-203 | one body read under io.ReadFull, of the retrying reader or the plain body: the next bytes of the file come into the rest of the chunk and nothing else of the buffer changes; its error is the one the body or a GET came back with, an end of file only at the end of the chunk; a read that failed is made again only within the retries; an operation that goes on stands where it stood or further |
| BufferDownload.ReadAdvances | azfile/highlevel.go:182-204 | what a body read came back with is a step of the system in Download that keeps its invariant, moves no other worker and ends the operation exactly if the chunk is full or the error final |
| BufferDownload.WorkTurn | azfile/highlevel.go:182-204 | a body read of one worker's operation, on the real buffer, is such a step, recorded with the error that came back; the operations of the others stand where they stood |
| BufferDownload.PoolTurn | azfile/highlevel.go:279-314 | an action of the pool is such a step; a worker that takes a chunk gets an operation of its own |
| BufferDownload.RunPool | azfile/highlevel.go:270-315 | with pool actions and body reads of all workers interleaved in any order it ends; the steps made, with the body reads recorded that made them, are a run of the system in Download, and pool and buffer are what its last state says |
| BufferDownload.Transfer | azfile/highlevel.go:270-315 | doBatchTransfer on the array: it ends; nil means the buffer holds the file; an error is that of a recorded body read that ended its chunk short, and nil means that there was none; bytes past the file are untouched |
| BufferDownload.DownloadToBuffer | azfile/highlevel.go:140-212 | a negative range size fails, a short buffer panics, an empty file is done, all without touching the buffer; otherwise the transfer runs with the caller's retries, range size and parallelism, or four megabytes and five, and is done, the file in the buffer, if and only if no body read ended its chunk short; if it fails it is with the error of one that did |
| Upload.Start | azfile/highlevel.go:45-80 | range sizes outside zero to four megabytes are refused, an empty buffer transfers nothing, otherwise the transfer has the caller's range size and parallelism, or four megabytes and five, and its chunks tile the buffer, all but the last full |
| Upload.PutRangeWrites | azfile/url_file.go:163-175 | the request a chunk makes writes exactly its range |
| Upload.ExecuteKeeps | azfile/highlevel.go:81-99 | executing a write, for the first time or again, completes its chunk and keeps the others |
| Upload.StepKeepsInv | azfile/highlevel.go:77-101 | every step keeps every executed chunk written and every nil result honest |
| Upload.UploadIsCorrect | azfile/highlevel.go:63-101 | after a nil return the remote file is the buffer, whatever the order of the writes and however often or late the server executed them |
| Upload.ErrorMeans | azfile/highlevel.go:63-101 | for every interleaving: an error is returned only if some operation ended with it, and nil only if all ended without |
| Upload.CanSucceed | azfile/highlevel.go:77-101 | in every state the request of an operation that runs can be sent and executed, and the operation end with nil |
| Upload.UploadNeverStuck | azfile/highlevel.go:63-101 | an upload in which nothing can happen has returned and left no goroutine |
| Progress.StepKeepsInv | azfile/highlevel.go:86-95 | every step of every closure keeps total plus pending differences equal to the sum of the ranges |
| Progress.ProgressIsConserved | azfile/highlevel.go:74-95 | in every interleaving: conservation, reports within the transfer also after a rewind, one closure past the lock at a time, the size when all ranges have reported all |
| Progress.ReportIsTotal | azfile/highlevel.go:86-95 | in every run every report is the total just after the range's difference was added, what all ranges have added until then; no other step reports or changes the total |
| Progress.LastReportIsSize | azfile/highlevel.go:86-95 | when all ranges have reported all their bytes the last report was the size of the transfer |
| Backoff.DefaultsAreSensible | azfile/zc_policy_retry.go:62-92 | defaults fill every gap, keep the assumptions on the options, are idempotent and leave complete options alone |
| Backoff.Pow | azfile/zc_policy_retry.go:95-101 | the loop computes the power modulo 2^64, for any exponent |
| Backoff.CalcDelay | azfile/zc_policy_retry.go:94-121 | returns one of the delays possible in wrapping int64 arithmetic with Go's truncation; never above the cap, zero for the first try, and while 1.3 times the nominal wait fits the jittered nominal wait, capped and not negative |
| Backoff.DelayMeans | azfile/zc_policy_retry.go:103-120 | whatever calcDelay may return, for any jitter: never above the cap, zero for the first try, and one value only while 1.3 times the nominal wait fits |
| Backoff.NeverNegative | azfile/zc_policy_retry.go:103-120 | all it may return for a try is between zero and the cap if and only if the wrapped product is not negative and 1.3 times it is at most 2^63 |
| Backoff.DefaultDelays | azfile/zc_policy_retry.go:83-120 | at the defaults that holds for tries 1 to 31, 40, 44, 49, 50 and 52 and for no others |
| Backoff.WaitTurnsNegative | azfile/zc_policy_retry.go:103-120 | at the defaults everything calcDelay may return for the 33rd try, and for every try from the 54th on, is negative |
| Backoff.NominalSum | azfile/zc_policy_retry.go:104-106 | n exponential tries wait (2^n - 1 - n) delays in all |
| Backoff.TotalWait | azfile/zc_policy_retry.go:94-121 | the jittered waits add up to at most 1.3 times that and to at most the cap for every try but the first |
| RetryPolicy.Do | azfile/zc_policy_retry.go:124-273 | for any secondary host and outcomes: at least one and at most MaxTries tries, each with the outcome the world gave it, and how many there are, and which go to the primary, is told from the outcomes alone: the run ends with the first outcome that is final, or with the last try allowed; a panic is a nil error without a response; the schedule of endpoints, counts and waits; every try's body and context disposed of as its action demands; with a nil error the body is not wrapped, and closed, if and only if all tries were used and the last got a secondary's 404 while the caller's context was alive |
| RetryPolicy.OneEnd | azfile/zc_policy_retry.go:204-240 | the outcomes decide how many tries there are |
| RetryPolicy.TemporaryIsRetried | azfile/zc_policy_retry.go:226-231 | while network errors are temporary or timeouts, all tries that are allowed are made |
| RetryPolicy.DecideMeans | azfile/zc_policy_retry.go:202-330 | a try is the last if and only if the caller's context has ended, or there is no error, or a storage error neither temporary nor with one of the five success codes, or an unrecognized one, or a network error neither temporary nor a timeout that is an empty OpError, of a listed type, or about an invalid header field; a secondary's 404 is retried on the primary |
| RetryPolicy.Try | azfile/zc_policy_retry.go:191-268 | one try: a retried one is drained, closed and cancelled, a final one keeps its body and its context alive if and only if it has no error |
| RetryPolicy.DoAndClose | azfile/zc_policy_retry.go:58-60 | with the empty secondary host, closing the returned body leaves no context alive and no body open |
| RetryPolicy.CancelOnClose.Close | azfile/zc_policy_retry.go:285-291 | closing the returned body closes the stream and cancels the try's context |
| RetryPolicy.SecondaryIsEven | azfile/zc_policy_retry.go:145-210 | a last answer from the secondary means that there is one and that the number of tries is even |
| RetryPolicy.ClosedResponse | azfile/zc_policy_retry.go:202-268 | with a secondary host and any even number of tries, the policy, answered by failures and then a 404, returns a nil error with a response drained and closed already |
| RetryPolicy.AllPrimary | azfile/zc_policy_retry.go:145-149 | without a secondary the number of primary tries is the number of the try |
| RetryPolicy.Alternates | azfile/zc_policy_retry.go:145-210 | with one, primary and secondary alternate until a secondary 404, from which on every try is primary, and the count is exact |
| RetryPolicy.SleepsAtMost | azfile/zc_policy_retry.go:141-151 | while no wait overflows a whole run sleeps at most 1.3 times the nominal sum and at most the cap for every try but the first |
| RetryPolicy.SleepsCapped | azfile/zc_policy_retry.go:141-165 | whatever overflows, with or without a secondary: at most the cap for every primary try but the first and 1.3 seconds for every secondary one |
| Query.UnescapeEscape | azfile/parsing_urls.go:105 | every byte string survives query escaping |
| Query.UnescapeFails | azfile/parsing_urls.go:97-104 | unescaping fails if and only if some percent sign is not followed by two hexadecimal digits of either case |
| Query.EitherCase | azfile/parsing_urls.go:97-104 | an escape stands for the byte its two digits make, in either case |
| Query.EscapeMeans | azfile/zc_sas_query_params.go:292-296 | a letter, a digit and the signs - . _ ~ are written as they are, a blank as a plus, and any other byte as an escape with upper-case digits |
| Query.RawSurvives | azfile/parsing_urls.go:143 | text printed raw is read back if and only if it has no % and no + |
| Query.ParseAppend | azfile/parsing_urls.go:139-151 | a query joined from two has the pairs of both |
| Query.ParsePrint | azfile/parsing_urls.go:105 | printed pairs are parsed back in order |
| Query.ParseEncode | azfile/zc_sas_query_params.go:292-296 | parsing inverts encoding on every map without empty lists |
| Query.EncodeValues | azfile/zc_sas_query_params.go:295 | encoding does not depend on the order of the map |
| SasFormats.ParseFormatTime | azfile/zc_sas_query_params.go:39-69 | a printed time is recognised in its own layout and comes back as far as the layout shows it, without its part of a second |
| SasFormats.FractionMeans | azfile/zc_sas_query_params.go:60-69 | after a point or a comma a fraction of a second is read in nanoseconds, as far as its first nine digits go; a point without a digit is not read |
| SasFormats.LeapYears | azfile/zc_sas_query_params.go:60-69 | the calendar that dates are checked against has a 29 February in years divisible by four, of the centuries only in those divisible by four |
| SasFormats.ParseFormatIpRange | azfile/zc_sas_query_params.go:169-178 | a printed IP range comes back; an end without a start is not printed |
| SasParams.NewSasQueryParameters | azfile/zc_sas_query_params.go:184-236 | each field is read from some key naming it up to case, or left empty; exactly the SAS keys are deleted, and only on demand |
| SasParams.AddToValues | azfile/zc_sas_query_params.go:239-289 | on a map without SAS keys, the union with the fields that are set |
| SasParams.FieldRoundTrip | azfile/zc_sas_query_params.go:184-289 | what is written for a field sets that field when read, and nothing is written for an empty one |
| SasParams.WriteThenRead | azfile/zc_sas_query_params.go:184-289 | parameters written among others are read back, up to printing, whatever the map order, and deleting them leaves the others |
| SasParams.EncodeStable | azfile/zc_sas_query_params.go:184-296 | encoded, parsed and encoded again is the same query if and only if no time that is not zero shows as the zero time |
| FileUrl.Get | azfile/parsing_urls.go:110-118 | the values of some key equal up to case, if there is one |
| FileUrl.PathRoundTrip | azfile/parsing_urls.go:62-95 | a path is read back into its parts if and only if names have no slash and none is missing before another |
| FileUrl.NewFileUrlParts | azfile/parsing_urls.go:56-107 | the parts are what the path and the query may be read as |
| FileUrl.ComposeUrl | azfile/parsing_urls.go:122-159 | the URL has the printed path, and unparsed parameters, snapshot and SAS one after the other |
| FileUrl.WithSnapshot | azfile/url_file.go:53-57 | the URL of some reading of the old one with the snapshot replaced, whatever the map order |
| UrlRestored.UrlReturns | azfile/parsing_urls.go:56-159 | for all parts: every reading of the printed URL gives them back, a SAS up to printing, if and only if path and query are restorable |
| UrlRestored.QueryRestored | azfile/parsing_urls.go:97-151 | the same for the query: canonical unparsed parameters that name the snapshot, if at all, in another spelling and alike; and a snapshot that is empty, clean, or else parsed to nothing the SAS does not say and named by them |
| UrlRestored.CleanRoundTrip | azfile/parsing_urls.go:97-151 | with a clean snapshot the unparsed parameters alone decide |
| UrlRestored.UncleanSnapshotKept | azfile/parsing_urls.go:100-104 | a snapshot that is not clean and is read back |
| UrlRoundTrip.RoundTrip | azfile/parsing_urls.go:56-159 | if the unparsed parameters do not name the snapshot, one reading decides: it gives the parts back if and only if they are canonical |
| UrlRoundTrip.QueryRoundTrip | azfile/parsing_urls.go:97-151 | the same for the query alone: clean snapshot, no SAS key among the unparsed parameters, and these in canonical encoding |
| UrlRoundTrip.OnlyCleanComesBack | azfile/parsing_urls.go:138-144 | a snapshot printed raw is a value of what it is parsed to only if it has no &, ;, % or + |
| UrlPlaces.EveryValueLands | azfile/parsing_urls.go:97-106 | in every reading every value of the query is found in exactly one of snapshot, SAS and unparsed parameters, no two in one place, if and only if the snapshot has one value, not empty, under its lower-case name only, or no value but empty ones in other spellings, and every SAS parameter is there once, in one spelling, with a value that is not empty and prints as it reads |
| UrlPlaces.SnapshotValueLost | azfile/parsing_urls.go:100-104 | a query with two spellings of the snapshot, one of whose values is found nowhere |
| UrlPlaces.EmptyValueLost | azfile/zc_sas_query_params.go:216-270 | the query ?sig=, whose one parameter is found nowhere, however it is read |
| UrlRebuilt.QueryRebuilt | azfile/parsing_urls.go:97-151 | every reading of a query, printed again, has the parameters of the query if and only if every name has the values that any snapshot that may be read, printed raw, and any spelling of its SAS field, printed, give it together |
| UrlRebuilt.CleanRebuilt | azfile/parsing_urls.go:97-151 | where the other spellings of the snapshot are clean or empty: if and only if the snapshot has one clean value all spellings agree on, or none, and every SAS parameter is there once, in lower case, with a value that prints as it reads |
| UrlRoundTrip.LeftBehind | azfile/parsing_urls.go:100-105 | the unparsed parameters are all but the SAS ones and the lower-case snapshot, with their values unchanged |
| UrlRestored.WithSnapshotWins | azfile/url_file.go:51-57 | a snapshot that was set, or removed, is read back by every order of the map if and only if no other spelling of its name says otherwise, and it is clean or none, or else does no harm and is named in another spelling |
| UrlRestored.MixedCaseLoses | azfile/parsing_urls.go:100-103 | a URL and a snapshot for which it is not |
| UrlRoundTrip.UncleanSnapshotLost | azfile/parsing_urls.go:143 | a snapshot that is not read back |
| Permissions.ShareSasPermissions.Parse | azfile/sas_service.go:145-163 | the flags are the letters of the string, whatever they were before; an unknown letter stops it |
| Permissions.ShareSasPermissions.String | azfile/sas_service.go:124-142 | the granted letters in the alphabet's order |
| Permissions.FileSasPermissions.Parse | azfile/sas_service.go:190-207 | the same for files |
| Permissions.FileSasPermissions.String | azfile/sas_service.go:172-187 | the granted letters in the alphabet's order |
| Permissions.AccountSasPermissions.Parse | azfile/zc_sas_account.go:113-138 | the same for accounts |
| Permissions.AccountSasPermissions.String | azfile/zc_sas_account.go:83-110 | the granted letters in the alphabet's order |
| Permissions.InOrderLetters | azfile/sas_service.go:124-142 | writing in order loses no granted letter and adds none |
| SasSigning.NewFileSas | azfile/sas_service.go:31-98 | the signed parameters or the error, a function of the values and the credential |
| SasSigning.NewAccountSas | azfile/zc_sas_account.go:26-73 | the same for an account, with its required fields |
| SasSigning.NameMeans | azfile/sas_service.go:101-114 | of an account and a share with slash-free names the canonical name is the one text that, after "/file", reads as a path of that account and share and of the file path with forward slashes and none in front |
| SasSigning.FileSasReceived | azfile/sas_service.go:51-98 | encoding the SAS, parsing it and rebuilding the string to sign from the query and the canonical name gives the string that was signed, so the signature in the query is right |
| SasSigning.FileSasVerifies | azfile/sas_service.go:51-114 | the same where the service takes the name from the path it is asked for |
| SasSigning.AccountSasVerifies | azfile/zc_sas_account.go:41-73 | the same for an account SAS |
| SasSigning.EarlyStartLost | azfile/zc_sas_query_params.go:252-257 | a SAS signed with a start one nanosecond after the zero time is another query when parsed and encoded again |
| SasSigning.FilePermissionsAsSets | azfile/sas_service.go:36-50 | two permission strings give the same SAS if and only if they have the same letters |
| SasSigning.AccountPermissionsAsSets | azfile/zc_sas_account.go:34-38 | the same for an account SAS |
| SasSigning.FileStringCovers | azfile/sas_service.go:57-72 | where the fields of one have no line break, equal strings to sign agree in all thirteen fields, whatever the other's are |
| SasSigning.AccountStringCovers | azfile/zc_sas_account.go:43-54 | the same for an account SAS, the account included |
| SasSigning.SameResource | azfile/sas_service.go:101-114 | either slash, and one in front or none, name the same file |
| SharedKey.BuildCanonicalizedHeader | azfile/zc_credential_shared_key.go:120-147 | the text of the headers collected in some order of the map, the last of a name winning |
| SharedKey.BuildCanonicalizedResource | azfile/zc_credential_shared_key.go:149-187 | the path and the sorted parameters, or the panic exactly for a query that does not parse |
| SharedKey.BuildStringToSign | azfile/zc_credential_shared_key.go:93-118 | the fields of the request with both canonical texts, or the panic exactly for a query that does not parse |
| SharedKey.LinesAsDocumented | azfile/zc_credential_shared_key.go:93-118 | of a request without line breaks in its verb and header values, any string to sign, cut at its line breaks, has for its first twelve lines the verb, the first values of the nine headers listed for them, the content length unless it is zero, and no date |
| SharedKey.HeadersOrderFree | azfile/zc_credential_shared_key.go:120-147 | the header text does not depend on the map's order if and only if colliding headers agree |
| SharedKey.CollidingHeaders | azfile/zc_credential_shared_key.go:122-127 | two headers for which it does |
| SharedKey.ResourceOrderFree | azfile/zc_credential_shared_key.go:163-185 | permuting the pairs of a query, and so the values of a parameter, changes nothing |
| SharedKey.HeaderNamesIncrease | azfile/zc_credential_shared_key.go:132-146 | the lines of any header text are those of exactly the names to be signed, strictly increasing, each with a colon and the values of a header of that name, commas between them |
| SharedKey.SignedAsMeans | azfile/zc_credential_shared_key.go:122-127 | a header is signed exactly if its name in lower case, without the blanks around it, begins with "x-ms-", and under that name |
| SharedKey.ParamNamesIncrease | azfile/zc_credential_shared_key.go:170-184 | the resource is the path and a line for each parameter, the names strictly increasing, each with a colon and its values in order, commas between them |
| SharedKey.StringOrderFree | azfile/zc_credential_shared_key.go:93-118 | a request has at most one possible string to sign if and only if its query does not parse or its colliding headers agree |
| SharedKey.QueryOrderFree | azfile/zc_credential_shared_key.go:93-118 | permuting the pairs of a request's query, with malformed segments in both or neither, leaves its possible strings to sign alone |
| Sorting.SortOrderFree | azfile/zc_credential_shared_key.go:136 | sorting depends on the elements only, not on the order they come in |
| Sorting.SortSorts | azfile/zc_credential_shared_key.go:178 | sorting gives a sorted permutation |
| Validation.Validate | azfile/zz_generated_validation.go:56-83 | no error if and only if every value satisfies its constraints; an error names a constraint that was reached and not passed |
| Validation.ValidateItem | azfile/zz_generated_validation.go:59-80 | the same for one value; it ends by the value, then the constraint, getting smaller |
| Validation.ValidateStruct | azfile/zz_generated_validation.go:85-99 | a struct satisfies what the field named last in the target does |
| Validation.ValidatePtr | azfile/zz_generated_validation.go:101-120 | read-only, absent and chained pointers |
| Validation.ValidateInt | azfile/zz_generated_validation.go:122-153 | the bounds and multiples of integers |
| Validation.ValidateFloat | azfile/zz_generated_validation.go:155-182 | the bounds of floats |
| Validation.ValidateString | azfile/zz_generated_validation.go:184-229 | the lengths and patterns of strings, and no chain after an absent one |
| Validation.ValidateArrayMap | azfile/zz_generated_validation.go:231-294 | presence, sizes, uniqueness and key patterns of collections, and no chain after an absent one |
| Validation.CheckForUniqueInArray | azfile/zz_generated_validation.go:316-332 | distinct elements, and some |
| Validation.CheckForUniqueInMap | azfile/zz_generated_validation.go:334-351 | distinct values, and some |
| Validation.SatisfiesMeans | azfile/zz_generated_validation.go:56-153 | a value satisfies a constraint if and only if every check that can be reached along the tree passes |
| ServiceProperties.TableMeans | azfile/zz_generated_service.go:189-206 | the table of SetProperties accepts exactly the properties whose retention days, where present, are 1 to 365, and no negative timeout |
| ServiceProperties.ValidateProperties | azfile/zz_generated_service.go:188-209 | the validator run on the table decides just that |
| ServiceProperties.SetProperties | azfile/url_service.go:153-197 | the properties a caller sets pass if and only if hour and minute metrics, where enabled with retention, have 1 to 365 days |

## Left out

- HTTP, the pipeline package, TLS, sleeping and clocks: any outcome may come back; a cancelled context is one of them.
- The transfer engine's own context, cancelled on the first error: the operations use the caller's context, so it stops nothing.
- BufferDownload.Body: takes the first GET of a chunk to succeed, because the source overwrites that error and then uses the response.
- BufferDownload.Operation.Step: an operation that is over leaves no body of a retrying reader open; the closing of a plain body is not part of this model.
- RetryReader.RetryReader.Get: takes the remote file not to change between GETs, because no ETag is sent; and no GET to fail with io.EOF.
- RetryReader.Response.Read: takes a body to make progress or fail, and to say EOF at its end only; what an HTTP client hands over has this form. The guard against a response without a body is part of the response.
- RetryReader.RetryReader.Read: one Read at a time, as with any io.Reader; Close is concurrent. Error injection for testing is off.
- Download.DownloadIsCorrect: speaks of nil returns; after an error return workers may still write into the buffer.
- Upload.UploadIsCorrect: the remote file and the buffer are values, and a request writes its whole range at once; what the service makes of overlapping requests in flight is not part of this model.
- Memory-mapped files and the file variants of upload and download, which only wrap the buffer variants.
- Backoff.CalcDelay: the jitter is a real number, so float32 rounding is not captured; outside the range of int64 the conversion gives any int64.
- RetryPolicy.Do: MaxTries is below the largest int32; the timeout query parameter and the panic on a body that cannot be rewound are not part of this model, nor is the text of log messages.
- Backoff.DefaultsAreSensible: the assumptions are those listed at the head of `defaults`.
- FileUrl.NewFileUrlParts: whether a host is an IP address is a parameter.
- SasFormats.ParseFormatTime: times are in the years 0 to 9999 without a zone; fractions of a second are read and held, but no layout shows them.
- SasFormats.ParseFormatIpRange: IPv4 only.
- SasParams.NewSasQueryParameters: IPv4 ranges only, as above.
- Query.ParsePrint: up to Go 1.16 a semicolon separates pairs as & does; that reading of a query is not part of this model.
- UrlRoundTrip.RoundTrip: lower-casing is that of ASCII letters; unparsed parameters that name the snapshot are the subject of UrlRestored.UrlReturns.
- UrlRoundTrip.QueryRoundTrip: likewise, and UrlRestored.QueryRestored.
- UrlRebuilt.CleanRebuilt: other spellings of the snapshot that are neither clean nor empty are the subject of UrlRebuilt.QueryRebuilt.
- RetryPolicy.SleepsAtMost: the bound for waits that overflow is RetryPolicy.SleepsCapped.
- SasSigning.NewFileSas: HMAC-SHA256 with base64 is a parameter, any function of the string to sign.
- SasSigning.NewAccountSas: a missing credential, on which the source panics, is excluded by the type.
- The services and resource types of an account SAS, whose Parse and String have the form of the permissions.
- SharedKey.BuildCanonicalizedHeader: trims ASCII blanks only. Adding the date header and sending the request are not part of this model.
- Validation.Validate: floats are real numbers, without NaN and the infinities; a pattern is the set of texts it matches, or malformed; values on which the source panics (a multiple of zero, a pattern that is not one, a slice asked for its keys) are excluded.
- Validation.ValidateItem: as Validation.Validate.
- Validation.ValidateFloat: floats are real numbers, as above.
- Validation.ValidateArrayMap: elements of collections are numbers and words, for which Go's equality is equality of values.
- Generated clients and response models, XML, logging, telemetry and request ids.
