# sharp-lambda, modelled in Dafny

The system is an AWS Lambda handler (`lib/sharp-lambda.ts`) that receives an
S3 "object created" event. For each record of the event, in order, it:

1. downloads the object (`download`);
2. for each width of the fixed ladder 200, 400, 800, 1600, 3200, renders a
   WebP of that width with the image library sharp, gzips it and uploads it as
   `<stem>-<width>.webp` with content type `image/webp` (`upload`);
3. asks sharp for the decoded original and uploads it under the input key,
   with content type `"image/" + format`.

Every upload goes to the bucket named by the environment variable
`TARGET_BUCKET`, or to `""` when it is unset or empty, and declares
`ContentEncoding: "gzip"`. Every step is awaited in turn. The first step whose
promise rejects rejects the whole invocation, so the records after it are
never touched.

The Dafny project has seven modules:

- `PosixPath` (`posix_path.dfy`): Node's POSIX `path.extname` and
  `path.basename(p, suffix)`. They are pure functions on strings, including
  Node's corner cases: ".bashrc", "..", trailing separators, and a suffix equal
  to the whole path. Strings are sequences of characters, not of UTF-16 code
  units (see "## Left out").
- `Decimal` (`decimal.dfy`): how a template literal renders a width.
- `Naming` (`naming.dfy`): the ladder, the derivative key
  `basename(key, extname(key)) + "-" + width + ".webp"` and the content types.
- `NamingExamples` (`naming.dfy`): the naming rule worked out on concrete keys.
- `S3` (`s3.dfy`): the object store as a class `S3Client` holding a map of
  objects and a log of the requests it received. A fault oracle decides which
  requests fail.
- `SharpLambda` (`sharp_lambda.dfy`): the handler. It has two layers:
  - pure specification functions. `PlanRecord` is what one record would upload
    if S3 accepted everything; `HandleRecord` and `HandleEvent` give what the
    handler does against the store.
  - imperative methods shaped like the program's two nested loops (`Handler`,
    `HandleOneRecord`, `UploadDerivatives`, `UploadWidth`, `Upload`,
    `Download`). Each method is proved to leave exactly the store state and
    outcome its specification function gives.
- `SharpLambdaProperties` (`sharp_lambda_properties.dfy`): what the handler
  promises, proved about those functions:
  - six uploads per completed record, in ladder order, to distinct keys;
  - the target bucket and gzip marker on every upload;
  - the request trace the service sees;
  - the first failure aborts the rest;
  - last-write-wins overwrites.

sharp and zlib are parameters: the three functions of a `Codecs` value, each
of which may fail. `process.env` is a parameter map.

Three behaviours of the code differ from what a reader might expect of an
image-resizing handler. The model follows the code in each:

- One might expect derivatives named `<key-without-extension>-<width>.webp`,
  keeping the directory (`photos/cat.jpg` → `photos/cat-200.webp`). The code
  applies `basename`, which drops the directory. `Naming.DerivativeKeyOfFilePath`
  proves the code's behaviour: `a/cat.jpg` gives `cat-200.webp`.
  `Naming.DerivativeKeysCollide` shows that records with the same stem
  overwrite each other's derivatives.
- One might expect every written object to be compressed, since every upload
  declares gzip. The code gzips only the derivatives: the original is uploaded as sharp returns it, yet it is still
  tagged `ContentEncoding: "gzip"`. `SharpLambdaProperties.PlanRecordShape`
  states both facts.
- One might expect a failing record to be skipped, or retried, while the rest
  of the batch completes. The code has no retries of its own. Its first
  rejected promise rejects the invocation, and later records are not
  processed (`SharpLambdaProperties.FirstFailureRejects`).

## Model

| member | source | states |
|---|---|---|
| `PosixPath.ExtName` | lib/sharp-lambda.ts:49 | `extname(key)` is empty, or starts with '.' and is shorter than the key; `PosixPath.ExtNameShape` characterises it fully, including when it is non-empty |
| `PosixPath.BaseName` | lib/sharp-lambda.ts:49 | `basename(p, suffix)` is never longer than `p`; `PosixPath.CutOffSuffix` and `PosixPath.BaseNameCutsSuffix` give the suffix it cuts off |
| `PosixPath.TrimTrailingShape` | lib/sharp-lambda.ts:48-49 | basename/extname ignore a run of trailing '/': what is removed is all separators and what is kept does not end with one |
| `PosixPath.AfterLastSeparatorShape` | lib/sharp-lambda.ts:48-49 | the last segment is an end of the trimmed path that contains no '/' and is preceded by a '/' unless it is the whole path |
| `PosixPath.LastDotShape` | lib/sharp-lambda.ts:48-49 | the '.' extname starts from is a '.', and no '.' follows it in the segment |
| `PosixPath.ExtNameShape` | lib/sharp-lambda.ts:48-49 | `extname(key)` is empty or starts with '.', has no further '.' and no '/', and is a proper suffix of the key's last segment; it is non-empty exactly when that segment is not ".." and has a '.' after its first character |
| `PosixPath.StemAndExtension` | lib/sharp-lambda.ts:48-49 | `basename(key, extname(key)) + extname(key)` is the last segment of the key; the stem has no '/' and is non-empty when there is an extension |
| `PosixPath.CutOffSuffix` | lib/sharp-lambda.ts:48-49 | `basename(p, s)` followed by `s` is the last segment whenever `s` is empty or a proper suffix of that segment |
| `PosixPath.BaseNameCutsSuffix` | lib/sharp-lambda.ts:48-49 | a suffix that properly ends the last segment is cut off it by `basename` |
| `PosixPath.StemOfFilePath` | lib/sharp-lambda.ts:48-49 | for `dir/name.ext` the stem is `name`: directory and extension are both dropped |
| `PosixPath.StemOfFileName` | lib/sharp-lambda.ts:48-49 | for a key `name.ext` at the root the stem is `name` |
| `PosixPath.LastSegmentOfPlainName` | lib/sharp-lambda.ts:48-49 | a key without '/' is its own last segment |
| `PosixPath.AfterDirectory` | lib/sharp-lambda.ts:48-49 | whatever precedes the last '/' is not part of the last segment |
| `PosixPath.DotBeforeExtension` | lib/sharp-lambda.ts:48-49 | in `name.ext` with no '.' in `ext`, the last '.' is the one before `ext` |
| `PosixPath.SameTextIsEquality` | lib/sharp-lambda.ts:48-49 | the character-by-character comparison basename performs is string equality |
| `Decimal.DecimalString` | lib/sharp-lambda.ts:49 | `${width}` is a non-empty string of digits with no leading zero, one digit exactly for widths below ten |
| `Decimal.DecimalRoundTrip` | lib/sharp-lambda.ts:49 | reading the rendered digits back gives the width |
| `Decimal.DecimalStringInjective` | lib/sharp-lambda.ts:49 | two widths render the same exactly when they are equal |
| `Naming.Stem` | lib/sharp-lambda.ts:49 | `basename(key, extname(key))` has no '/' and is no longer than the key; `PosixPath.StemAndExtension` shows it is the last segment without its extension |
| `Naming.DerivativeKey` | lib/sharp-lambda.ts:48-49 | a derivative key contains no '/' and never equals the input key |
| `Naming.DerivativeKeyIsNotInputKey` | lib/sharp-lambda.ts:48-49 | stem + "-" + width + ".webp" has no '/' and differs from the key it came from |
| `Naming.WidthSuffixShape` | lib/sharp-lambda.ts:49 | the width suffix starts with '-' and contains no '/' |
| `Naming.DerivativeKeysDistinct` | lib/sharp-lambda.ts:47-49 | for one input key, two widths give the same derivative key exactly when they are the same width |
| `Naming.DerivativeKeysCollide` | lib/sharp-lambda.ts:48-49 | two input keys give the same derivative key for a width exactly when their stems agree |
| `Naming.DerivativeKeyOfFilePath` | lib/sharp-lambda.ts:48-49 | the derivative key of `dir/name.ext` is `name-<width>.webp` |
| `Naming.DerivativeKeyOfFileName` | lib/sharp-lambda.ts:48-49 | the derivative key of a root key `name.ext` is `name-<width>.webp` |
| `NamingExamples.Suffix200` | lib/sharp-lambda.ts:49 | the suffix for width 200 is "-200.webp" |
| `NamingExamples.SharedStemExample` | lib/sharp-lambda.ts:48-49 | `a/cat.jpg` and `b/cat.png` both get the derivative key `cat-<width>.webp`, for every width |
| `NamingExamples.RootKeyExample` | lib/sharp-lambda.ts:48-49 | the root key `cat.jpg` gets the derivative key `cat-200.webp` at width 200 |
| `S3.GetStep` | lib/sharp-lambda.ts:32-37 | getObject changes no object, logs one request, returns the stored body exactly when the service does not fault and the key exists |
| `S3.PutStep` | lib/sharp-lambda.ts:20-28 | putObject logs one request, succeeds exactly when the service does not fault, and then stores body and metadata under (bucket, key), replacing what was there |
| `S3.Record` | lib/sharp-lambda.ts:20-37 | handling a request appends it to the log and changes the objects only for an accepted put |
| `S3.RecordFollows` | lib/sharp-lambda.ts:20-37 | each request is one step of the store's evolution |
| `S3.LastWriteWins` | lib/sharp-lambda.ts:20-28 | after a run of requests a key holds what the last accepted put to it stored, or what it held before when none reached it |
| `S3.LastWriteIsLatest` | lib/sharp-lambda.ts:20-28 | the last write is an accepted put to the key with no accepted put to the key after it |
| `S3.ReplayConcat` | lib/sharp-lambda.ts:20-28 | replaying two runs of requests is replaying the first, then the second |
| `S3.FollowsTransitive` | lib/sharp-lambda.ts:20-37 | a later state of a later state is a later state |
| `S3.S3Client.constructor` | lib/sharp-lambda.ts:9 | the client starts with the given objects and an empty log |
| `S3.S3Client.GetObject` | lib/sharp-lambda.ts:32-37 | the client's new state and result are those of `GetStep` |
| `S3.S3Client.PutObject` | lib/sharp-lambda.ts:20-28 | the client's new state and result are those of `PutStep` |
| `SharpLambda.TargetBucket` | lib/sharp-lambda.ts:22 | the bucket is the value of TARGET_BUCKET when set, "" otherwise |
| `SharpLambda.Derivative` | lib/sharp-lambda.ts:48-52 | a derivative exists exactly when render and gzip both succeed; its body is the gzip of the render; its key is not the input key and has no '/'; otherwise the failure names the step that failed |
| `SharpLambda.Upload` | lib/sharp-lambda.ts:19-29 | `upload` sends one putObject to the target bucket with the given key, body and type and encoding "gzip" |
| `SharpLambda.Download` | lib/sharp-lambda.ts:31-40 | `download` sends one getObject for the record's bucket and key |
| `SharpLambda.PlanWidths` | lib/sharp-lambda.ts:47-55 | the ladder plans at most one upload per width, and all of them exactly when no render or gzip fails; `SharpLambdaProperties.PlanWidthsShape` gives what each upload is |
| `SharpLambda.PlanRecord` | lib/sharp-lambda.ts:47-57 | a record plans at most one upload per width plus the original, and all of them exactly when no codec fails; `SharpLambdaProperties.PlanRecordShape` gives what each upload is |
| `SharpLambda.PutAll` | lib/sharp-lambda.ts:53-57 | sending uploads adds at most one request per upload to the service's log, and one for each exactly when none fails; `SharpLambdaProperties.PutAllAccepted` and `SharpLambdaProperties.PutAllStopsAtFailure` give the log itself |
| `SharpLambda.SendPlan` | lib/sharp-lambda.ts:47-57 | a plan stopped by a codec failure always fails the record; sending adds at most one request per planned upload, and all of them when nothing fails |
| `SharpLambda.HandleRecord` | lib/sharp-lambda.ts:44-58 | a record sends at least its download and at most seven requests, exactly seven when it completes; `SharpLambdaProperties.RecordTrace` gives them |
| `SharpLambda.HandleEvent` | lib/sharp-lambda.ts:42-59 | the invocation sends at most seven requests per record, exactly seven per record when it completes, and at least one when it rejects; `SharpLambdaProperties.FirstFailureRejects` and `SharpLambdaProperties.HandlerOverwrites` give what it leaves |
| `SharpLambda.Handler` | lib/sharp-lambda.ts:42-59 | the handler leaves the store and settles exactly as `HandleEvent` over the event's records |
| `SharpLambda.HandleOneRecord` | lib/sharp-lambda.ts:44-58 | one pass of the record loop does exactly what `HandleRecord` says: download, ladder, original |
| `SharpLambda.UploadDerivatives` | lib/sharp-lambda.ts:47-55 | the width loop sends the ladder's puts in order and stops at the first render, gzip or upload failure |
| `SharpLambda.UploadWidth` | lib/sharp-lambda.ts:48-54 | one pass of the width loop either ends the ladder with its failure or leaves the rest of the ladder from the next width |
| `SharpLambda.RenderDerivative` | lib/sharp-lambda.ts:48-52 | names, renders and gzips one derivative as `Derivative` says |
| `SharpLambda.EventStep` | lib/sharp-lambda.ts:44-58 | record `i` either rejects the event or hands over to record `i + 1` |
| `SharpLambda.LadderBroken` | lib/sharp-lambda.ts:50-52 | a failed render or gzip ends the ladder with nothing more sent |
| `SharpLambda.LadderPut` | lib/sharp-lambda.ts:53 | a failed derivative upload ends the ladder with that key's failure; an accepted one leaves the rest of the ladder |
| `SharpLambda.PlanRecordAfterLadder` | lib/sharp-lambda.ts:56-57 | after the ladder, a failure there is the record's; otherwise a failed re-encode, or else the original's upload, ends the record |
| `SharpLambda.PutAllConcat` | lib/sharp-lambda.ts:47-57 | sending two runs of puts is sending the first and, unless it failed, then the second |
| `SharpLambdaProperties.WidthsAscending` | lib/sharp-lambda.ts:7 | the ladder has five widths in strictly increasing order |
| `SharpLambdaProperties.PlanWidthsShape` | lib/sharp-lambda.ts:47-55 | the ladder uploads, one per width and in order, the derivatives of a prefix of the widths, and stops short exactly at the first broken derivative |
| `SharpLambdaProperties.PlanRecordShape` | lib/sharp-lambda.ts:47-57 | a record plans the derivatives in ladder order and then the original (input key, "image/" + format, body not gzipped); all to the target bucket with encoding "gzip"; it completes exactly when all are planned, else stops at the first codec failure |
| `SharpLambdaProperties.PlanRecordKeysDistinct` | lib/sharp-lambda.ts:47-57 | with distinct widths, the keys of a record's uploads are pairwise different |
| `SharpLambdaProperties.RecordPlansSixUploads` | lib/sharp-lambda.ts:7-57 | with the handler's ladder a record completes exactly with six uploads: widths 200, 400, 800, 1600, 3200, then the original, to six different keys |
| `SharpLambdaProperties.PutAllAccepted` | lib/sharp-lambda.ts:47-57 | when no upload fails, the service received every planned put, in order, and accepted it |
| `SharpLambdaProperties.PutAllStopsAtFailure` | lib/sharp-lambda.ts:47-57 | when an upload fails, the service received the puts before it, then the failed one and nothing after, and the failure names its key |
| `SharpLambdaProperties.RecordTrace` | lib/sharp-lambda.ts:44-58 | a download fails exactly when the service faults or the object is missing, and then it is the record's only request; a completed record is its download followed by six accepted uploads |
| `SharpLambdaProperties.PlanStopIsNotDownload` | lib/sharp-lambda.ts:47-57 | a record's plan never stops with a download failure |
| `SharpLambdaProperties.PutAllNeverDownloadFails` | lib/sharp-lambda.ts:53-57 | sending puts reports only upload failures |
| `SharpLambdaProperties.PutStepFollows` | lib/sharp-lambda.ts:20-28 | an upload is one step of the store's evolution |
| `SharpLambdaProperties.PutAllFollows` | lib/sharp-lambda.ts:47-57 | a run of uploads is the old store with those requests applied |
| `SharpLambdaProperties.HandleRecordFollows` | lib/sharp-lambda.ts:44-58 | one record is the old store with its requests applied |
| `SharpLambdaProperties.HandleEventFollows` | lib/sharp-lambda.ts:42-59 | the whole invocation only appends its requests to the log and applies them to the objects |
| `SharpLambdaProperties.HandlerOverwrites` | lib/sharp-lambda.ts:42-59 | afterwards each key holds what the invocation's last accepted upload to it stored, and a key no upload reached is unchanged |
| `SharpLambdaProperties.HandleEventConcat` | lib/sharp-lambda.ts:44-58 | records run one after another: a rejected prefix ends the invocation, a completed one hands its state to the rest |
| `SharpLambdaProperties.FirstFailureRejects` | lib/sharp-lambda.ts:44-58 | the first failing record rejects the invocation with its own fault, after its own requests, and the records after it are never processed |

## Left out

- Logging (`console.log` at lines 38, 43 and 54) has no observable effect on
  the store and is not modelled.
- Promises and `async`/`await`: every await is a sequential step, and a
  rejected promise is the `Option<Fault>` or `Outcome` the step returns. The
  Lambda runtime's reaction to a rejected invocation (retries, dead-letter
  queues) is not part of this model.
- sharp (decode, `clone`, `toFormat("webp")`, `resize`, `toBuffer`) and zlib's
  `gzip` (the `zip` helper, lines 11-17) are not part of this model. They are
  functions of a `Codecs` value that may fail. `render` depends only on the
  source bytes and the width, so `clone()` sharing pipeline state is not
  modelled, and neither is the pixel content of any image.
- A sharp input that cannot be decoded fails lazily in the code, at the first
  `toBuffer`. The model reports it as the first render failure.
- The AWS SDK, credentials, the network and its own retries are not part of
  this model. Whether a request fails is the fault oracle's decision, given
  the request and its position in the log.
- `file.Body as Buffer` is taken to be the stored bytes. A response without a
  body, or with a body of another type, is not modelled.
- Object keys are used verbatim, exactly as the code uses them. The
  URL-encoding S3 applies to keys in event notifications is not modelled.
- `process.env` is a map parameter and is read once per upload. Changes to it
  during the invocation are not modelled.
- Strings are sequences of Unicode characters, while JavaScript measures
  them in UTF-16 code units. `PosixPath.BaseName` compares the lengths of
  the path and the suffix, so with an arbitrary suffix it can answer
  differently from Node on text outside the Basic Multilingual Plane (path
  "😀😀/a/", suffix "xxxxxa"). The handler's own call is not affected,
  because `extname(key)` always ends the key's last segment.
- Node's `path` module is not part of this model. Its POSIX `basename` and
  `extname` are written out from their algorithm; the Windows variants are not
  modelled.
- `${width}` is modelled only for the non-negative integer widths the ladder
  holds.
