# s3-recursive-download, modelled in Dafny

The program mirrors every object under an Amazon S3 prefix into a local directory tree. It
does three things in sequence:

1. `listAllKeys` pages through ListObjectsV2. It follows continuation tokens and drops
   directory markers, which are keys ending in `/`.
2. The main block removes leading slashes from the prefix, clamps the concurrency to at
   least 1, and cuts the key list into contiguous batches of that size.
3. It downloads the batches one after another: all keys of a batch at once, each to the
   path `keyToLocalPath` gives it. It stops after the first batch in which a download
   failed.

The model is split into four modules:

- `Wrappers` (`wrappers.dfy`) holds `Option` and `Result`.
- `PathMapper` (`path_mapper.dfy`) holds `keyToLocalPath`. It is pure, so it is modelled
  with functions and lemmas. The result is a `LocalPath(root, segments)`, which keeps
  `path.join` abstract.
- `KeyLister` (`key_lister.dfy`) holds `listAllKeys`. It is a method with a loop, run
  against a scripted client: request `i` is answered by response `i` of a sequence, and
  each response is a page or an error. The method returns both the key list and the
  requests it sent. It is proved against `Listing` and `RequestsSent`, which are functions
  of the script.
- `BatchDriver` (`batch_driver.dfy`) holds the main block. It has these parts:
  - `Run` normalises the prefix, clamps the concurrency and lists the keys.
  - `DownloadListed` handles the empty list and then downloads the keys in batches.
  - `DownloadInBatches` is the batch loop and `DownloadBatch` is one batch.
  - A download is an opaque per-key outcome: a `Downloader` function from key to
    success.
  - These methods are proved against the functions `Batches`, `BatchesStarted` and
    `FailedKeys`.

## Model

| member | source | states |
|---|---|---|
| PathMapper.RelativePart | s3-download-directory-recursively.js:87-88 | when the prefix is non-empty and the key starts with it, prefix + result = key; otherwise the result is the whole key, with no error |
| PathMapper.StripLeadingSlashes | s3-download-directory-recursively.js:90 | the result is a suffix of the input and does not start with `/`; everything removed was a `/` |
| PathMapper.StripIdempotent | s3-download-directory-recursively.js:90 | stripping twice equals stripping once |
| PathMapper.StripAfterSlashes | s3-download-directory-recursively.js:90 | any run of slashes followed by a string not starting with `/` strips to exactly that string, so the result is unique |
| PathMapper.Split | s3-download-directory-recursively.js:92 | splitting on `/` gives at least one piece, and no piece contains `/` |
| PathMapper.JoinSplit | s3-download-directory-recursively.js:92 | joining the pieces of a split with `/` gives back the string, so nothing is lost by splitting |
| PathMapper.SplitJoin | s3-download-directory-recursively.js:92 | splitting the join of separator-free pieces gives back the pieces |
| PathMapper.NonEmpty | s3-download-directory-recursively.js:92 | the filter never lengthens the list; no kept piece is empty, and a piece is kept iff it is in the input and non-empty |
| PathMapper.NonEmptySingle | s3-download-directory-recursively.js:92 | a single piece is kept exactly when it is non-empty |
| PathMapper.NonEmptyAppend | s3-download-directory-recursively.js:92 | filtering a concatenation concatenates the filtered parts; with `NonEmptySingle` this fixes the order and multiplicity of `filter(Boolean)` |
| PathMapper.NonEmptyDropsEmpty | s3-download-directory-recursively.js:92 | an empty piece anywhere in the list (a repeated or trailing slash) is dropped and changes nothing else |
| PathMapper.NonEmptyKeepsSegments | s3-download-directory-recursively.js:92 | pieces that are all non-empty pass the filter unchanged, in order |
| PathMapper.StripDoesNotChangeSegments | s3-download-directory-recursively.js:90-92 | the segments are the same whether or not leading slashes are stripped before splitting |
| PathMapper.KeyToLocalPath | s3-download-directory-recursively.js:85-94 | the root component is the destination root, and every segment is non-empty and free of `/` |
| PathMapper.SegmentsOfRelativePart | s3-download-directory-recursively.js:85-94 | the segments are exactly the non-empty `/`-separated pieces of the key below the prefix, in order |
| PathMapper.KeyUnderPrefix | s3-download-directory-recursively.js:85-94 | a matching non-empty prefix followed by joined segments maps to exactly those segments under the root |
| PathMapper.KeyWithSlashes | s3-download-directory-recursively.js:85-94 | with an empty prefix, leading slashes followed by joined segments map to exactly those segments |
| PathMapper.NonMatchingPrefix | s3-download-directory-recursively.js:88 | an empty or non-matching prefix maps the key exactly as if there were no prefix (the silent fallback) |
| PathMapper.LeadingSlashCollides | s3-download-directory-recursively.js:90-93 | with an empty prefix, a key and the same key with a leading slash map to the same local path, so two listed keys can be written to one file |
| PathMapper.ExampleDotDotKept | s3-download-directory-recursively.js:92-93 | `..` is kept as a segment: `../x` maps to segments `[.., x]`, which `path.join` resolves outside the destination root |
| PathMapper.ExampleRepeatedSlashes | s3-download-directory-recursively.js:92 | `a//b/` maps to segments `[a, b]`: the empty pieces of repeated and trailing slashes are dropped |
| PathMapper.ExamplePrefixRemoved | tests/keyToLocalPath.test.js:4-10 | `some/path/to/file.txt` under `some/path/` goes to `/tmp/dest` + `[to, file.txt]` |
| PathMapper.ExampleLeadingSlash | tests/keyToLocalPath.test.js:12-18 | `/leading/slash/file.txt` with an empty prefix goes to `/tmp/dest2` + `[leading, slash, file.txt]` |
| KeyLister.PrefixParam | s3-download-directory-recursively.js:54 | the prefix is sent iff it is non-empty, and then unchanged |
| KeyLister.KeptKeys | s3-download-directory-recursively.js:59-62 | every key pushed from a page is present, non-empty and does not end in `/` |
| KeyLister.PageKeys | s3-download-directory-recursively.js:58-63 | a page without `Contents` contributes no key; every key contributed is a file key |
| KeyLister.NextToken | s3-download-directory-recursively.js:64-66 | a truncated page always carries its `NextContinuationToken` forward, and a page that is not truncated carries no token |
| KeyLister.Continues | s3-download-directory-recursively.js:64-67 | another request follows a page exactly when the page is truncated and its `NextContinuationToken` is present and non-empty |
| KeyLister.StopsAt | s3-download-directory-recursively.js:51-67 | the loop sends no further request exactly after an error, a page that is not truncated, or a page whose token is absent or empty |
| KeyLister.FirstStop | s3-download-directory-recursively.js:51-67 | the loop ends at the first response that is an error, or whose page is not truncated or has an absent or empty token; every earlier response continues it |
| KeyLister.CollectedKeys | s3-download-directory-recursively.js:49-63 | the keys accumulated over the pages read are all file keys |
| KeyLister.Listing | s3-download-directory-recursively.js:48-69 | the listing fails iff the response that ends it is an error; then no key list is returned |
| KeyLister.RequestsSent | s3-download-directory-recursively.js:50-57 | request `i` names the bucket, sends the prefix only when non-empty, and carries the token left by response `i - 1` |
| KeyLister.ListAllKeys | s3-download-directory-recursively.js:48-69 | the loop sends one request per response up to and including the one that ends the listing; it returns the pages' file keys concatenated in request order, or the error of a failing request |
| KeyLister.AppendFileKeys | s3-download-directory-recursively.js:59-62 | the inner loop appends exactly the file keys of the page's entries, in order |
| KeyLister.Pagination | s3-download-directory-recursively.js:50-67 | the first request has no token; each later request carries the non-empty `NextContinuationToken` of the truncated page before it; every request names the bucket and the prefix only when non-empty |
| KeyLister.ListingIgnoresLaterResponses | s3-download-directory-recursively.js:51-67 | no request is made after the listing ends: responses scripted beyond it change nothing |
| KeyLister.UntruncatedPageIsLast | s3-download-directory-recursively.js:64-67 | a page that is not truncated ends the listing even if it carries a token |
| KeyLister.TruncatedPageContinues | s3-download-directory-recursively.js:64-67 | a truncated page with a non-empty token does not end the listing |
| KeyLister.ExampleTwoPages | tests/listAllKeys.test.js:11-32 | a truncated page holding a file and a marker, followed by a final page, lists `[prefix/file1.txt, prefix/file2.txt]` |
| KeyLister.ExampleSecondPageFails | s3-download-directory-recursively.js:57 | a failing second request fails the whole listing, with no partial list |
| BatchDriver.ClampConcurrency | s3-download-directory-recursively.js:106-109 | the concurrency used is at least 1; it equals the requested value when that is at least 1, and is 1 otherwise |
| BatchDriver.ExitCode | s3-download-directory-recursively.js:118-143 | the exit status is 0 exactly for an empty listing or a completed run, and 1 otherwise |
| BatchDriver.FailedKeys | s3-download-directory-recursively.js:125-136 | a batch has no more failed keys than keys; the list is empty iff every download of the batch succeeds, and each key in it failed |
| BatchDriver.FailedKeysExact | s3-download-directory-recursively.js:125-136 | every failed key is a key of the batch, and every key of the batch whose download failed is listed |
| BatchDriver.Batches | s3-download-directory-recursively.js:123-124 | there are no batches exactly when there are no keys, and never more batches than keys (contents fixed by `BatchesPartition`, `BatchesSizes` and `BatchAt`) |
| BatchDriver.BatchesPartition | s3-download-directory-recursively.js:123-124 | the batches concatenated in order give back the key list, so every key lies in exactly one batch |
| BatchDriver.BatchesSizes | s3-download-directory-recursively.js:123-124 | every batch is non-empty and holds at most C keys, and every batch but the last holds exactly C |
| BatchDriver.BatchAt | s3-download-directory-recursively.js:123-124 | batch `j` is `keys[j*C .. min(j*C + C, n)]` |
| BatchDriver.ClampedToSingleKeys | s3-download-directory-recursively.js:106-109 | a requested concurrency of 1 or less makes every batch a single key |
| BatchDriver.BatchesStarted | s3-download-directory-recursively.js:123-137 | the batches started are every batch up to and including the first failing one; every earlier batch succeeded |
| BatchDriver.StartedThroughFailure | s3-download-directory-recursively.js:123-137 | after successful batches, a failing batch is the last one started |
| BatchDriver.StartedAll | s3-download-directory-recursively.js:123-137 | when every batch succeeds, every batch is started |
| BatchDriver.ExampleSecondKeyFails | s3-download-directory-recursively.js:123-137 | keys `[k1, k2, k3]` with C = 2 and k2 failing: batch `{k1, k2}` is started and fails, and batch `{k3}` is never started |
| BatchDriver.DownloadBatch | s3-download-directory-recursively.js:125-136 | every key of the batch is attempted, in order, at its mapped local path; the failed keys are exactly those whose download failed |
| BatchDriver.DownloadInBatches | s3-download-directory-recursively.js:123-137 | the attempts are the keys of the batches started, in key order; nothing fails iff every key succeeds; the failure reported is that of the last batch started |
| BatchDriver.RunJobAttempt | s3-download-directory-recursively.js:127-129 | in a run, each key is downloaded to `keyToLocalPath(key, PREFIX, DEST)` |
| BatchDriver.DownloadListed | s3-download-directory-recursively.js:118-139 | an empty listing attempts nothing and ends normally; otherwise the attempts are the keys of the batches started; the run completes, with exit status 0, iff every download succeeds; both final statuses carry the number of keys found, and a failure carries the failed keys of the last batch started |
| BatchDriver.Run | s3-download-directory-recursively.js:104-143 | the prefix is stripped of leading slashes before listing; a listing error gives exit status 1 with no download attempted; otherwise the outcome is that of `DownloadListed` under the run's path mapping and clamped concurrency |

## Left out

- The S3 client and credentials (`getS3`, `fromIni`) are left out. The client is a
  scripted sequence of responses.
- `Ends`: the model assumes the script eventually answers with an error or a final page.
  A service that keeps returning truncated pages would keep the program listing for ever.
- Command-line and environment parsing (`getArg`), the required-bucket check with exit
  status 2, and all console output are left out. The run returns its final status as a
  value instead.
- `downloadObjectToFile` and `ensureDirForFile` are left out: fetching, `mkdir`, the
  write stream and the pipe. A download is an opaque per-key success or failure. Within
  one run the local path is a function of the key.
- The timing of `Promise.all` is not modelled. It runs the downloads of a batch
  concurrently, and its rejection carries only the first failure to settle. The model
  attempts every key of a batch in order and reports all of the batch's failed keys.
  Completion order, interleaving and which error is logged are not modelled.
- The cut-off of a failing batch is not modelled. As soon as the first rejection settles,
  the error handler calls `process.exit(1)`, which ends the process while sibling downloads
  of that batch may still be running. A sibling's `Attempt.ok` is therefore the outcome it
  would have reached, not one the program observed.
- `path.join` normalisation is left out: platform separators, and the resolution of `.` and
  `..`. A local path is the root together with its segments. `.` and `..` pieces of a key
  are kept as segments (`ExampleDotDotKept`), and `path.join` resolves them, so a key such
  as `a/../../x` is written outside the destination root.
- Different keys can map to the same local path (with an empty prefix, `/k` and `k`, see
  `LeadingSlashCollides`; `a//b` and `a/b` likewise). Two such keys are then written to
  one file, concurrently when they share a batch. The model records the mapping, not what the file system does with the clash.
- `parseInt` of a non-numeric concurrency, which gives `NaN`, is left out. The requested
  concurrency is an integer.
- Process termination is left out. `process.exit(1)` in the error handler and the normal
  return of the async main function are modelled as the status value `ExitCode`.
