# postgres-s3-backups, modelled in Dafny

This project models the three workflows of a small service that backs up a
PostgreSQL database to S3-compatible object storage and restores it:

- **Retention** (`retention.dfy`). The sweep lists the backups under the bucket
  prefix page by page, following continuation tokens. It gathers the keys of
  objects last modified before the cutoff and deletes them in batches. A batch
  goes out once 1000 or more keys have piled up after a page, and the rest go
  out at the end. A failed list call ends the sweep. A failed delete call does
  not. A non-positive `RETENTION_DAYS` turns the sweep off. An unset one does
  not: the sweep runs against an invalid date, lists every page and deletes
  nothing.
- **Backup** (`backup.dfy`). It derives the archive name from the ISO-8601 time
  (runs of `:` and `.` become one `-`), dumps the database into a temporary
  archive, checks that the archive is not empty, and uploads it. Under object
  lock the upload carries a Content-MD5 digest. After a successful upload it
  removes the temporary file. The archive name starts with
  `BACKUP_FILE_PREFIX`, or with `undefined` when that variable is unset.
- **Restore** (`restore.dfy`). It downloads the named archive, tests it with
  gzip and estimates the restore time. It then resets the target database with
  three admin commands: terminate backends, drop, create. They connect to the
  URL the workflow builds by replacing the first occurrence of the path text
  with `/postgres`, as the code does. Finally it runs `pg_restore` and always removes the
  temporary file.

Every call to the outside world other than logging becomes an `Effect`, or a
retention `Request`, appended to a trace that the methods return:

- the dump, the archive head read, the backup's stat, the hash, the upload,
  the unlink, the download, the gzip test, the restore's stat, each `psql`
  and `pg_restore`;
- for retention, the list and delete calls.

What those calls answer is an input: `ExecResult` records, `ListResponse`
pages, `BackupOracle` and `RestoreOracle`. The methods are proved against
specification functions:

- `Retention.Sweep`, and `Retention.Continue` for one listing;
- `Backup.BackupEffects` (the calls of `Backup.StagedEffects` for the
  archive named after the time) and `Backup.BackupOutcome`, built from
  `Backup.DumpTrace`, `Backup.DumpDecision`, `Backup.UploadTrace` and
  `Backup.UploadOutcome`;
- `Restore.StageEffects`, `Restore.StagesOutcome`, `Restore.ResetPlan` and
  `Restore.ResetOutcome`.

The properties of those functions are lemmas. `promises.dfy` models a
JavaScript promise whose first settlement wins. The model uses it for
`deleteFile`, which resolves before the unlink callback can reject, and for
the admin commands, whose callbacks reject and then resolve. `common.dfy`
holds the environment record, the effect and error types, and an occurrence
count.

## Model

| member | source | states |
|---|---|---|
| Common.Count | src/restore.ts:144-150 | the number of occurrences of an effect never exceeds the trace length, and is zero exactly when the effect does not occur (used to say that the temporary file is removed exactly once) |
| Common.CountAppend | src/restore.ts:144-150 | occurrences in a concatenated trace add up |
| Promises.Promise.constructor | src/backup.ts:113 | a new promise is pending |
| Promises.Promise.Resolve | src/backup.ts:118 | resolving settles a pending promise as fulfilled and leaves a settled one unchanged |
| Promises.Promise.Reject | src/backup.ts:115 | rejecting settles a pending promise as rejected with the reason and leaves a settled one unchanged |
| Retention.ListPrefix | src/retention.ts:28 | the prefix is empty without a subfolder, and the subfolder followed by `/` otherwise |
| Retention.Expired | src/retention.ts:50-55 | no object qualifies against an invalid date, nor one without a modification time; a qualifying object has a non-empty key |
| Retention.ExpiredKeys | src/retention.ts:49-55 | at most one key is collected per listed object, and none when the cutoff is an invalid date |
| Retention.ExpiredKeysSound | src/retention.ts:49-55 | every collected key belongs to a listed object that has a key and a modification time before the cutoff |
| Retention.ExpiredKeysComplete | src/retention.ts:49-55 | every listed object that has a key and was modified before the cutoff has its key collected |
| Retention.FirstStop | src/retention.ts:42-61 | the listing stops at the first response that fails or is not truncated, and no earlier response is stopping |
| Retention.ConsumedIsPrefix | src/retention.ts:42-61 | the responses the sweep reads are exactly those up to and including the first stopping one |
| Retention.MaxPageKeys | src/retention.ts:49-57 | no page contributes more expired keys than this bound; the bound is zero with no pages and is otherwise reached by some page |
| Retention.Continue | src/retention.ts:37-73 | the requests of a listing from a given token begin with the list request for that token |
| Retention.SweepEnabled | src/retention.ts:10-13 | the sweep runs unless `RETENTION_DAYS` is set and not positive; unset, `undefined <= 0` is false and the sweep runs |
| Retention.RetentionDate | src/retention.ts:29-30 | the cutoff is a valid date, the given one, exactly when `RETENTION_DAYS` is set; unset, it is an invalid date |
| Retention.Sweep | src/retention.ts:10-44 | the sweep sends nothing exactly when `RETENTION_DAYS` is set and not positive; otherwise it starts by listing the prefix without a token |
| Retention.ContinueLists | src/retention.ts:39-61 | one listing with a given start token issues one list request per response read; the first carries the start token and each later one carries the previous page's next token |
| Retention.ContinuePrefix | src/retention.ts:32-46 | every list request of a listing uses the listing prefix |
| Retention.ContinueKeys | src/retention.ts:49-73 | the keys deleted by a listing are, in order, the pending keys followed by the expired keys of the pages read; on a list failure the dropped remainder is shorter than 1000 |
| Retention.DeletedAfterTruncatedPage | src/retention.ts:57-67 | after a truncated page the deleted keys are the batch due in the loop, if any, followed by the keys deleted by the rest of the listing |
| Retention.DueAfterTruncatedPage | src/retention.ts:49-67 | the keys due after a truncated page split the same way: the batch due in the loop, then the kept keys and the later pages' expired keys |
| Retention.ContinueBatchSizes | src/retention.ts:63-73 | every delete batch of a listing is non-empty and has fewer than 1000 plus the largest per-page count keys; every batch but the last has at least 1000 |
| Retention.ContinueFailureIsLast | src/retention.ts:37-76 | when a list call fails, the failed list request is the last request the listing makes |
| Retention.SweepListsUntilFirstStop | src/retention.ts:39-61 | the sweep starts without a token, follows each next token, stops after the first failed or untruncated response, and always lists under the subfolder prefix |
| Retention.SweepDeletesExpiredKeys | src/retention.ts:49-76 | the concatenated delete batches are a prefix of the expired keys of the pages read, equal to all of them when no list call fails, and missing fewer than 1000 when one does |
| Retention.ExpiredOfSound | src/retention.ts:49-57 | every key gathered from a run of pages was the key of an expired object on one of those pages |
| Retention.SweepDeletesOnlyExpired | src/retention.ts:49-57 | every deleted key was listed on a page the sweep read, for an object modified before the cutoff |
| Retention.SweepBatchSizes | src/retention.ts:63-73 | every delete batch is non-empty and below 1000 plus the largest per-page count; every batch except the last holds at least 1000 keys |
| Retention.SweepFailureEndsSweep | src/retention.ts:74-78 | after a failed list call nothing more is sent: the failed request is the last one |
| Retention.NoCutoffOnlyLists | src/retention.ts:49-55 | against an invalid date no object qualifies, so a listing sends only list requests |
| Retention.SweepUnsetOnlyLists | src/retention.ts:10-55 | with `RETENTION_DAYS` unset the sweep still runs, and sends list requests only |
| Retention.LoopStep | src/retention.ts:42-68 | one loop iteration on a page emits its list request and any batch due, and leaves the rest of the sweep equal to the listing that continues from the kept keys and the next token |
| Retention.DeleteExpiredObjects | src/retention.ts:81-101 | a delete call sends exactly the given keys; it counts as failed when the call throws or reports per-object errors |
| Retention.ApplyRetentionPolicy | src/retention.ts:9-79 | the loop issues exactly the requests of the sweep specification, whatever the delete calls answer; with `RETENTION_DAYS` set and not positive it sends nothing |
| Backup.DropSeparators | src/backup.ts:126 | dropping a leading run of `:` and `.` never lengthens the text and strictly shortens it when it starts with one |
| Backup.DropSeparatorsSplits | src/backup.ts:126 | the text splits into a run of separators and a rest that does not start with one |
| Backup.SanitizeTimestamp | src/backup.ts:126 | the sanitised timestamp contains no `:` or `.` |
| Backup.SanitizeKeepsSeparatorFree | src/backup.ts:126 | text without `:` or `.` is left unchanged |
| Backup.SanitizeIdempotent | src/backup.ts:126 | sanitising twice gives the same as sanitising once |
| Backup.DropWholeRun | src/backup.ts:126 | a whole run of separators before non-separator text is dropped |
| Backup.DropWithinPrefix | src/backup.ts:126 | dropping stops inside a prefix that ends with a non-separator |
| Backup.SanitizeLeadingRun | src/backup.ts:126 | a leading run of separators, however long, becomes one `-` |
| Backup.SanitizeAppend | src/backup.ts:126 | sanitising distributes over a split after a non-separator |
| Backup.SanitizeSplitsAtRun | src/backup.ts:126 | a maximal run of separators between two parts becomes exactly one `-` |
| Backup.Erase | src/backup.ts:126 | removing a set of characters leaves none of them |
| Backup.EraseAppend | src/backup.ts:126 | removal distributes over concatenation |
| Backup.EraseRun | src/backup.ts:126 | a text made only of removed characters erases to nothing |
| Backup.SanitizeKeepsOthers | src/backup.ts:126 | apart from `:`, `.` and `-`, sanitising keeps every character in order |
| Backup.FileName | src/backup.ts:125-127 | the archive name is the prefix, `-`, the sanitised timestamp and `.tar.gz`, in that order and nothing else |
| Backup.FileStemSeparatorFree | src/backup.ts:125-127 | the name without its extension has no `:` or `.` when the prefix has none |
| Backup.FileNameDeterminesStamp | src/backup.ts:127 | under one prefix, equal archive names mean equal sanitised timestamps |
| Backup.ObjectKey | src/backup.ts:31-33 | the object key is the name under the subfolder prefix that the sweep lists |
| Backup.ObjectKeyInjective | src/backup.ts:31-33 | within one subfolder, distinct names give distinct keys |
| Backup.TrimEnd | src/backup.ts:69 | the trimmed text is a prefix that does not end in white space or a line terminator, and all that was cut was such characters |
| Backup.TrimEndIgnoresPadding | src/backup.ts:69 | trailing white space does not change the trimmed text |
| Backup.DumpDecision | src/backup.ts:67-103 | the dump succeeds exactly when the command did not fail and the archive yields one byte; a failure reports the trimmed stderr, and an empty archive has its own error |
| Backup.DumpIgnoresWarnings | src/backup.ts:86-103 | text on stderr of a successful command does not change the decision |
| Backup.DumpTrace | src/backup.ts:64-92 | the dump runs first; the archive head is read exactly when the command succeeded, and the file is stat-ed exactly when the dump decision passes |
| Backup.DumpToFile | src/backup.ts:61-109 | runs the dump into the path with exactly the calls of the dump trace, and settles as the decision says |
| Backup.UploadParams | src/backup.ts:31-48 | the upload goes to the configured bucket, under the subfolder key, from the archive, with the digest exactly under object lock once hashing succeeded |
| Backup.UploadTrace | src/backup.ts:41-56 | the file is hashed exactly under object lock, the upload is sent unless hashing failed, and nothing else is called |
| Backup.UploadOutcome | src/backup.ts:41-56 | the upload step succeeds exactly when hashing (if required) and the upload do; a failed hash is reported before a failed upload |
| Backup.UploadToS3 | src/backup.ts:16-59 | issues exactly the upload trace with the upload parameters and settles as the upload outcome says |
| Backup.DeleteFile | src/backup.ts:111-120 | issues one unlink of the path and settles as fulfilled whatever the unlink reports |
| Backup.TemplateText | src/backup.ts:127 | an unset prefix is written as `undefined` in the archive name, a set one as its text |
| Backup.BackupOutcome | src/backup.ts:122-135 | the backup succeeds exactly when every stage does; otherwise it fails with the dump's error, then the hash failure, then the upload failure, whichever comes first |
| Backup.BackupStartsWithDump | src/backup.ts:130 | the first call is the dump into the archive path |
| Backup.DumpFailureStopsBackup | src/backup.ts:130-131 | a failed dump or an empty archive ends the backup after the dump's own calls, with no upload, reporting the trimmed stderr or the empty-archive error |
| Backup.BackupUploadsOnce | src/backup.ts:130-131 | every upload of a backup carries the archive's upload parameters, and there is exactly one when the dump and the hash succeed and none otherwise |
| Backup.BackupUploadTarget | src/backup.ts:31-48 | the backup's upload goes to the configured bucket, under the key for the archive name, from the archive, with a digest exactly under object lock once hashing succeeded |
| Backup.BackupDeletesOnSuccess | src/backup.ts:130-132 | a successful backup ends with the only unlink of the archive; a failed one never removes it |
| Backup.RunBackup | src/backup.ts:122-135 | issues exactly the backup trace and reports the backup outcome |
| Restore.DownloadFromS3 | src/restore.ts:17-51 | downloads from the configured bucket the key that the backup gives the same name, into the temporary path |
| Restore.ValidateBackupFile | src/restore.ts:53-62 | tests the archive once and fails with the invalid-file error exactly when gzip rejects it |
| Restore.EstimatedMinutes | src/restore.ts:64-67 | the estimate is the least number of minutes at 100 MiB per minute that covers the file size |
| Restore.EstimateMonotone | src/restore.ts:64-67 | a larger file never gets a smaller estimate |
| Restore.EstimateOfMultiple | src/restore.ts:64-67 | a file of exactly k times 100 MiB is estimated at k minutes |
| Restore.EstimateRestoreTime | src/restore.ts:64-69 | stats the file once and computes the estimate from its size |
| Restore.IndexFrom | src/restore.ts:75 | the search from a position finds the first occurrence at or after it, or reports that there is none |
| Restore.IndexOf | src/restore.ts:75 | finds the first occurrence of the pattern, or reports that there is none |
| Restore.ReplaceFirst | src/restore.ts:75 | string replacement changes only the first occurrence, and returns the text unchanged when there is none |
| Restore.DbName | src/restore.ts:74 | the database name is the URL path without its leading character |
| Restore.RootUrl | src/restore.ts:75 | the workflow's admin URL is the connection string with the first occurrence of the path text, wherever it is, replaced by `/postgres`, and unchanged when the text does not occur |
| Restore.AdminUrl | src/restore.ts:75 | the corrected admin URL keeps everything before and after the path and replaces only the path, by `/postgres` |
| Restore.RootUrlAgrees | src/restore.ts:75 | the replacement as written gives the intended admin URL whenever the path text first occurs at the path itself |
| Restore.ExampleFirstOccurrence | src/restore.ts:75 | in `postgresql://app:pw@host/app` the text `/app` first occurs in the credentials, at position 12 |
| Restore.ExampleRootUrl | src/restore.ts:75 | replacing the first `/app` there gives `postgresql://postgres:pw@host/app` |
| Restore.RootUrlHitsCredentials | src/restore.ts:75 | for a user named like the database, the replacement as written rewrites the user name, keeps the database path, differs from the corrected URL, and is where the reset's first command connects |
| Restore.ResetPlan | src/restore.ts:71-105 | the reset plan is three commands on the workflow's admin URL, all naming the database of the path: terminate backends, drop, create |
| Restore.ResetPlanAgrees | src/restore.ts:75 | when the path text first occurs at the path itself, every reset command connects to the corrected admin URL |
| Restore.ResetSteps | src/restore.ts:77-105 | the reset sends one to three commands, and all three exactly when the first two succeed |
| Restore.ResetOutcome | src/restore.ts:77-105 | the reset succeeds exactly when all three commands do, and fails with the stderr of the first one that fails |
| Restore.RunAdminCommand | src/restore.ts:78-84 | sends one command through the admin URL; a failing command rejects even though the callback then resolves |
| Restore.ResetDatabase | src/restore.ts:71-108 | an unparsable URL sends nothing and fails; otherwise the commands of the plan for that URL string and its path are sent in order up to the first failure, with the outcome the reset specification gives |
| Restore.RestoreDatabase | src/restore.ts:110-125 | runs one restore of the archive into the database and fails with its stderr when it fails |
| Restore.StagesOutcome | src/restore.ts:138-143 | the stages succeed exactly when the download, the gzip test, the URL, the reset and the restore all succeed |
| Restore.OrderAppend | src/restore.ts:138-143 | traces in stage order can be joined in stage order |
| Restore.PlanIsAdmin | src/restore.ts:77-105 | the commands sent by the reset are non-empty, all admin commands, and in stage order |
| Restore.StageEffects | src/restore.ts:138-143 | the stages make one to seven effects, and the first is always the download of the configured key |
| Restore.StagesNeverUnlink | src/restore.ts:138-143 | the stages never delete the temporary file |
| Restore.StagesInOrder | src/restore.ts:138-143 | the effects follow the stage order: download, test, stat, admin commands, restore |
| Restore.ResetOnlyAfterChecks | src/restore.ts:139-142 | an admin command is sent exactly when the download and the gzip test succeed and the URL parses |
| Restore.RestoreOnlyAfterReset | src/restore.ts:142-143 | the restore runs exactly when every earlier stage, including the whole reset, succeeds |
| Restore.FirstFailureEndsStages | src/restore.ts:138-143 | a failed download or gzip test ends the stages, and the reset commands come right after the stat |
| Restore.RestoreStages | src/restore.ts:138-143 | the stages issue exactly the staged effects and report the staged outcome |
| Restore.RunRestore | src/restore.ts:127-153 | without a database URL or file name nothing is done and the call fails; otherwise the stages run and the temporary file is removed exactly once, last, whatever their outcome |

## Left out

- The S3 SDK, its client options (region, endpoint, path style, credentials), streams and multipart upload are not modelled. Each call is one effect, and whether it succeeded is an input.
- The shell command strings are left out. Each `exec`/`execSync` command becomes a structured effect, so the model does not capture the unquoted interpolation of URLs and paths into them.
- `createMD5` and the hex-to-base64 conversion come from `util.ts`, which is not part of this model. The digest is an input: `None` means hashing failed.
- The model does not capture `execSync` (src/backup.ts:75) or `statSync` (src/backup.ts:92) throwing inside the dump callback. Such a throw is an uncaught exception that ends the Node process, and the dump promise never settles.
- Restore.EstimateRestoreTime: `statSync` throwing is not modelled. The size is an input.
- Restore.EstimatedMinutes: `Math.ceil(sizeMB / 100)` uses floating point. The model uses the exact integer ceiling, which can differ only by rounding for enormous sizes.
- Dates are inputs: the retention date in milliseconds, and the ISO time string of the backup. The model does not capture `new Date()`, `setDate` or `toISOString`. The date moved by an unset `RETENTION_DAYS` is modelled as an invalid date (`None`), against which no comparison holds.
- Common.Env: `RETENTION_DAYS` is modelled as unset or an integer. A value that is not a number is not modelled.
- `index.ts` is not part of this model. That leaves out the cron schedules, the startup run, and `tryBackup` swallowing errors. `notify_error.ts` is not called by the core and is left out.
- `env.ts` declares only some of the variables the workflows read. It lacks `BUCKET_SUBFOLDER`, `SUPPORT_OBJECT_LOCK`, `BACKUP_FILE_PREFIX`, `RETENTION_DAYS` and the restore variables. The model takes all of them as fields of the `Env` record and leaves out envsafe's validation and defaults. As written, an undeclared variable is always unset. So `RETENTION_DAYS` never turns the sweep off and the sweep deletes nothing (Retention.SweepUnsetOnlyLists), and every archive name starts with `undefined-` (Backup.TemplateText, through `Common.Env.backupFilePrefix` being `None`).
- Logging is left out, along with the statistics it prints: the deleted count, the file size and the estimate text.
- Retention.Sweep requires that some response eventually stops the listing (`EndsListing`). A store that is truncated forever makes the source loop forever. That case is not modelled.
- Retention.Request does not record the bucket on list and delete requests. It is the same configured bucket throughout.
- WHATWG URL parsing and normalisation are left out. The parsed path of the target URL is an input (`RestoreOracle.pathname`), and `None` stands for the `URL` constructor throwing. The reset builds its admin URL and database name from the URL string and that path, as the code does. The corrected URL is stated on a parsed URL (`ParsedUrl`), split into the text before the path, the path and the text after it.
- Concurrency is not modelled, including overlapping scheduled runs. The promise model is sequential.
- `deleteFile` is declared without `export` in src/backup.ts:111, but src/restore.ts:15 imports it. The model treats it as one helper shared by both workflows.
- Retention.SweepBatchSizes bounds a batch by 1000 plus the largest per-page count among the pages read. The tighter bound would use the size of the page that triggered the flush.
- Retention.ContinueBatchSizes states the same weaker bound for one listing: 1000 plus the largest per-page count among the pages read, not the count of the page that triggered the flush.
- One might expect the backup to clean up after a failure, batches of at most 1000 keys, and a sweep that survives a failed list call. The model follows the code instead:
  - the backup does not remove the temporary file when the dump or upload fails;
  - batches can exceed 1000 keys, because the threshold test runs once per page;
  - a failed list call ends the sweep and drops the keys still pending.

## Findings

| source | as written | input that shows it | evidently intended | confidence | as-written member | corrected member |
|---|---|---|---|---|---|---|
| src/restore.ts:75 | the admin URL replaces the first occurrence of the path text anywhere in the URL string | `postgresql://app:pw@host/app` gives `postgresql://postgres:pw@host/app`, which changes the user name and still names the database `app` (Restore.RootUrlHitsCredentials) | replace the URL's path only, giving `postgresql://app:pw@host/postgres` | not executed | Restore.RootUrl | Restore.AdminUrl |

The reset in the workflow model keeps the URL as written, so that its effects
are the ones the code issues. Restore.RootUrlAgrees and
Restore.ResetPlanAgrees show that the corrected URL is what the reset uses
whenever the path text first occurs at the path itself.
