# Crash-dump handler: a Dafny model

`handle_crash_reporting.py` is the kernel's core-dump handler for one
application. It is called with a core token and a signal number; the dump
arrives on standard input. It ignores SIGABRT (`"6"`), moves to its own
directory, drops root privileges, saves the dump as `core.<token>`, asks gdb
for a backtrace, uploads the dump to the S3 bucket `media-server-coredumps`,
posts a Slack message with a download link and the backtrace, and removes
the dump.

Every call to the outside world (S3, Slack, gdb, the operating system) is an
abstract outcome here. The deterministic rules between those calls are
modelled and proved:

- `chunking.dfy` (`Chunking`): the multipart chunk plan of `upload_to_s3`.
  A file of `size` bytes becomes `ceil(size / 52428800)` parts. They are
  numbered from 1 and cover the file exactly.
- `upload.dfy` (`S3Upload`): `upload_to_s3` as a specification function,
  `Upload`. Its answers from storage come from a `Storage` record. The
  result is the URL or None, or an escaping exception. The run is the
  ordered list of calls it makes (`UploadStep`). The methods `UploadToS3`
  and `SendParts` follow the script's own control flow, including the
  `for i in range(chunk_count)` loop. They are proved equal to `Upload`.
- `upload_facts.dfy` (`UploadFacts`): the upload's promises. Parts follow
  the plan in order. Completion comes only after every part. A URL is
  returned only after completion and pre-signing. Every failure inside the
  `try` ends in a cancel. A missing connection yields None.
- `report.dfy` (`SlackReport`): the notification text of
  `slack_reporter.report`. `ReadMessage` is its inverse: it reads the link
  or the failure, and the stack, back from the text.
- `handler.dfy` (`CrashHandler`): the `__main__` block as the decision
  function `Handle`. From `argv` and the answers of the environment
  (`Host`) it gives the exit kind, the ordered effects and the files left
  on disk.
- `handler_facts.dfy` (`HandlerFacts`): the guards, the dump name, the
  `"No stack"` fallback, and when the dump is deleted or kept.

Some of the script's behaviour is easy to misread. The model follows the
code in each of these cases:

- `get_bucket`, compression and `initiate_multipart_upload` sit outside the
  `try` of `upload_to_s3` (lines 119-133). An exception there escapes to
  `__main__`. Then no notification is posted and the dump stays on disk.
  The upload does not just return None in that case.
- `generate_presigned_url` sits inside the `try` (line 146). Its failure
  therefore cancels an upload that was already completed.
- `os.chdir` (line 201) is outside any `try`. If it raises, the process
  ends with an uncaught exception (`ChdirRaised`).
- The compressed `<dump>.gz` copy is never removed. It remains on disk even
  after a fully successful run (`CompressedCopyRemains`).

## Model

| member | source | states |
|---|---|---|
| `Chunking.ChunkCount` | handle_crash_reporting.py:134-135 | the part count is the ceiling of size / 52428800: it covers the size, one part fewer does not, it is 0 exactly for an empty file and 1 for sizes 1..52428800 |
| `Chunking.PlannedPart` | handle_crash_reporting.py:138-140 | part i (offset 52428800*i, length min(52428800, size - offset)) has a length between 1 and 52428800 and ends inside the file |
| `Chunking.PlanShape` | handle_crash_reporting.py:138-143 | part numbers run 1..n in order, offsets are 52428800*i, every length is in 1..52428800 and every part but the last is full |
| `Chunking.PlanContiguous` | handle_crash_reporting.py:138-141 | the first part starts at 0, each part starts where the previous ended, and the last ends at the file size |
| `Chunking.PlanPrefixTotal` | handle_crash_reporting.py:138-141 | the first k parts carry exactly min(size, 52428800*k) bytes |
| `Chunking.PlanTotal` | handle_crash_reporting.py:138-141 | the lengths of all parts add up to the file size |
| `Chunking.PlanCovers` | handle_crash_reporting.py:138-141 | every byte of the file lies in exactly one part, part b / 52428800 |
| `S3Upload.UploadTarget` | handle_crash_reporting.py:122-129 | the name is kept exactly when the size is at most 1048576 (strict comparison), in which case the size is kept too; above it the name gains ".gz" and the size is that of the compressed file |
| `S3Upload.Basename` | handle_crash_reporting.py:133 | the multipart key is the part of the name after its last '/': a suffix of the name containing no '/', preceded by '/' when shorter |
| `S3Upload.FirstFailure` | handle_crash_reporting.py:137-143 | the loop stops at the first part whose upload raises: all earlier parts succeeded, that one failed, or none failed |
| `S3Upload.PartCalls` | handle_crash_reporting.py:141-143 | one upload call per part, in plan order |
| `S3Upload.TransferPartFails` | handle_crash_reporting.py:137-150 | when part i+1 is the first to fail, the try block sends parts 1..i+1 and cancels |
| `S3Upload.UploadToS3` | handle_crash_reporting.py:112-133 | the script's upload (connection check, get_bucket, compression, initiation, then the try block) makes exactly the calls and returns exactly the result of the specification `Upload` |
| `S3Upload.SendParts` | handle_crash_reporting.py:134-150 | the chunk loop, completion, pre-signing and the except branch make exactly the calls and return exactly the result of the specification `Transfer` |
| `S3Upload.PartsSentOfPartCalls` | handle_crash_reporting.py:141-143 | the calls made for a list of parts send exactly that list |
| `UploadFacts.PartsFollowPlan` | handle_crash_reporting.py:137-150 | in every run, the parts sent are a prefix of the chunk plan, in plan order |
| `UploadFacts.TransferSucceedsIff` | handle_crash_reporting.py:137-150 | inside the `try`, the URL is returned exactly when every part upload, the completion and the pre-signing return normally |
| `UploadFacts.UrlIffEverythingSucceeds` | handle_crash_reporting.py:112-150 | `upload_to_s3` returns a URL exactly when connect, get_bucket, initiate, every planned part, complete and pre-sign all succeed, and the URL is the pre-signed one; any failure gives None or an exception |
| `UploadFacts.TransferRaisesIff` | handle_crash_reporting.py:137-150 | inside the `try`, an exception escapes exactly when a part upload, the completion or the pre-signing fails and the cancel raises too |
| `UploadFacts.UploadRaisesIff` | handle_crash_reporting.py:112-150 | `upload_to_s3` raises exactly when, after a connection, get_bucket or the initiation fails (both outside the `try`), or something inside the `try` fails and the cancel raises |
| `UploadFacts.OpeningFailureRaises` | handle_crash_reporting.py:119-133 | a failing get_bucket or initiation raises with no cancel, no completion and no part sent |
| `UploadFacts.UrlOnlyAfterEveryPart` | handle_crash_reporting.py:137-146 | a URL is returned only when it is the pre-signed one, every part upload and the completion returned normally, and the run was: opening calls, every planned part, complete, pre-sign for the uploaded name with 86400 s expiry, and no cancel |
| `UploadFacts.CompleteOnlyAfterEveryPart` | handle_crash_reporting.py:138-144 | whenever complete is called, every planned part was sent before it and every part upload returned normally |
| `UploadFacts.FailureCancels` | handle_crash_reporting.py:137-150 | once the upload is initiated, the run returns the URL or ends with cancel; a failed part upload, completion or pre-signing always ends in the cancel; after a cancel it returns None, or raises when cancelling raises |
| `UploadFacts.NoConnectionNoUrl` | handle_crash_reporting.py:112-117 | without a connection nothing is called and None is returned |
| `UploadFacts.EmptyDumpSendsNoPart` | handle_crash_reporting.py:133-144 | an empty dump is not compressed and sends no part: get_bucket, initiate, then complete, whether or not complete succeeds |
| `UploadFacts.BasenameOfPlainName` | handle_crash_reporting.py:133 | a name without '/' is its own basename |
| `UploadFacts.SignedKeyIsUploadedKey` | handle_crash_reporting.py:133-146 | for a name without '/', the key initiated and the key pre-signed are the same uploaded name |
| `UploadFacts.CompressedIffLarge` | handle_crash_reporting.py:119-129 | the dump is compressed to `<name>.gz` exactly when the connection and bucket were obtained and the dump is over 1 MiB |
| `UploadFacts.CompressTargets` | handle_crash_reporting.py:126-127 | the only compressed copy an upload writes is `<name>.gz` |
| `SlackReport.ReadMessageInverts` | handle_crash_reporting.py:65-70 | reading the text back, given the dump name, recovers the URL or its absence and the stack exactly, for URLs without newlines |
| `SlackReport.ReadFailureMessage` | handle_crash_reporting.py:65-66 | a text without a URL reads back as "no URL" and its stack |
| `SlackReport.ReadDownloadMessage` | handle_crash_reporting.py:67-70 | a text with a URL reads back as that URL and its stack |
| `SlackReport.FailureIsVisible` | handle_crash_reporting.py:65-68 | for the same dump, a failure text never equals a download text |
| `HandlerFacts.WrongArityPrintsUsage` | handle_crash_reporting.py:192-194 | with an argument count other than 3 the script prints usage and does nothing else |
| `HandlerFacts.AbortSignalIgnored` | handle_crash_reporting.py:196-199 | the run is ignored exactly when there are 3 arguments and the signal is the string "6"; then nothing is done and nothing is left |
| `HandlerFacts.DumpWrittenOnlyPastGuards` | handle_crash_reporting.py:201-221 | the dump is written, gdb run, the upload tried, the post made or the file removed only past both guards, the chdir and the privilege drop; the dump is "core." + argv[1] and gdb and the upload get that name |
| `HandlerFacts.UnlinkOnlyAfterPost` | handle_crash_reporting.py:223-224 | the dump is removed only right after a post that returned normally |
| `HandlerFacts.CopiesOfDumpUpload` | handle_crash_reporting.py:122-129 | the main path leaves `core.<token>.gz` exactly when the bucket was reached and the dump is over 1 MiB |
| `HandlerFacts.DumpKeptIffException` | handle_crash_reporting.py:215-227 | past the guards the dump stays on disk exactly when an exception reached the handler; the run reports exactly when upload did not raise and post and unlink returned |
| `HandlerFacts.CompressedCopyRemains` | handle_crash_reporting.py:126-128 | a dump over 1 MiB that reached the bucket leaves its `.gz` copy on disk, even after a successful run |
| `HandlerFacts.NotificationCarriesOutcome` | handle_crash_reporting.py:215-223 | unless the upload raised, a post to the fixed channel is made whose text reads back as the upload's URL or failure and gdb's output, or "No stack" when gdb failed |
| `HandlerFacts.PostIffUploadReturned` | handle_crash_reporting.py:215-227 | past the guards, a post is made exactly when the upload did not raise; when it raised, neither the post nor the unlink happens |
| `HandlerFacts.NoConnectionStillReports` | handle_crash_reporting.py:112-117 | with no storage connection the run still posts the failure text and removes the dump |

## Left out

- S3, boto and boto3 are not modelled. Connect, get_bucket, initiate, upload part, complete, cancel and pre-sign are abstract success or failure outcomes in `Storage`. The pre-signed URL is an opaque string.
- Creating `boto3.client('s3')` (line 107) is assumed to return normally.
- `boto.connect_s3()` (line 112) is assumed not to raise. `Storage.connects` distinguishes only a connection from None; an exception from the connect, which would escape `upload_to_s3` to the handler's `except` (dump kept, no post), is not modelled.
- The gzip compression (lines 72-79) is not modelled. The compressed size is an opaque input, and `compress_file` and `os.stat` are assumed to return normally.
- Reading standard input into the dump (lines 154-169) is assumed to succeed (`WriteDump`). That includes the case where `open` fails and the `finally` block touches an unbound `output`.
- `read_stdin_into_file` ignores its argument and writes the global `file_name`. In this script the two are always equal.
- `drop_privileges` (lines 174-187) and the `os.stat` calls feeding it are one abstract outcome, `dropOk`. The setgroups/setgid/setuid/umask sequence is not modelled.
- The Slack API call (lines 55-56) and its token are not modelled; the post is an abstract outcome, `postOk`.
- The gdb subprocess is not modelled; its output is an abstract `Option<string>`.
- Logging and `print` are not modelled. Neither affects any decision.
- `ChunkCount`: uses integer ceiling division in place of `math.ceil(size / float(chunk_size))`. The two agree for every size below 2^53 bytes.
- Process exit status is not modelled. The script does not set one.
