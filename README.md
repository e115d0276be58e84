# Database backup pipeline — a verified model

The program backs up one or more PostgreSQL databases: for each configured
database it dumps the database into a gzip-compressed tar archive under
`/tmp/<name>/`, checks that the archive decompresses to at least one byte,
uploads it to an S3 bucket under `<name>/<file name>`, and deletes the local
copy. The list of databases comes from the `BACKUP_DATABASE_URLS_CONFIG`
setting, a JSON array of `{url, name}` objects validated at start-up.

This project models, in three modules:

- `Naming` (naming.dfy): the file-system-safe timestamp
  (`date.replace(/[:.]+/g, '-')`), the archive file name, the local path, the
  object key, and the parent directory computed as
  `filePath.split('/').slice(0, -1).join('/')`, plus the directories a
  recursive `mkdir` creates.
- `Config` (config.dfy): the validator of `BACKUP_DATABASE_URLS_CONFIG`, over
  a datatype of parsed JSON values, with the `try`/`catch` that collapses
  every failure into one generic message.
- `Pipeline` (pipeline.dfy): `dumpToFile`, `uploadToS3`, `deleteFile` and the
  body of `backup` as methods of a `Host` class whose fields are the local
  paths that exist, the keys in the bucket, and the trace of external calls
  (mkdir, dump, archive check, upload, unlink). The results of the external
  processes, of the upload, of `unlink` and of the clock are parameters.

The timestamp replace is defined as the regex does it (each greedy match of
`[:.]+` becomes one `-`) and is proved equal to an independent one-pass
definition (`Scan`); from that, runs, clean text and concatenation are
characterised, and for an ISO-8601 timestamp the result is shown to be the
timestamp with its two colons and its period replaced by `-`, position by
position (for example `2024-01-02T03:04:05.678Z` becomes
`2024-01-02T03-04-05-678Z`). Split and join are proved to round-trip.

Three behaviours of the code are worth knowing, and the model keeps them:

- a failed dump or upload ends the job and leaves the archive under `/tmp`;
- `deleteFile` fulfils even when `unlink` fails, so a removal failure is
  never reported;
- the archive path is created even when the dump tool fails, because the
  shell opens the `>` redirection for `gzip` whatever `pg_dump` does (unless
  opening the redirection is itself what failed).

## Model

| member | source | states |
|---|---|---|
| Naming.Sanitize | src/backup.ts:104 | the sanitised timestamp holds no `:` and no `.`, and is never longer than the input |
| Naming.SanitizeIsScan | src/backup.ts:104 | the global greedy replace agrees on every string with a one-pass scan that writes `-` only where a run of `:`/`.` starts |
| Naming.SanitizeClean | src/backup.ts:104 | text without `:` and `.` is left unchanged |
| Naming.SanitizeRun | src/backup.ts:104 | a whole non-empty run of `:`/`.` becomes exactly one `-` |
| Naming.SanitizeAppend | src/backup.ts:104 | where no run straddles the cut, the replace distributes over concatenation, so other characters keep their order |
| Naming.SanitizeIdempotent | src/backup.ts:104 | replacing again changes nothing |
| Naming.SanitizeKeepsNoSlash | src/backup.ts:104 | the replace introduces no `/` |
| Naming.SanitizeIsolated | src/backup.ts:104 | when no two separators are adjacent, the replace works character by character |
| Naming.SanitizeIso | src/backup.ts:103-104 | an ISO-8601 timestamp keeps its length and every character except the two colons and the period, which become `-` |
| Naming.SanitizeIsoInjective | src/backup.ts:103-104 | distinct ISO timestamps give distinct sanitised timestamps |
| Naming.FileNameParts | src/backup.ts:105 | `FileName` is 14 characters longer than the timestamp, the timestamp can be read back from its middle, and it holds a `/` exactly when the timestamp does |
| Naming.ObjectKeyParts | src/backup.ts:30 | `ObjectKey` `<prefix>/<name>` with a `/`-free name splits back, as a path, into the prefix (its `Dir`) and the name (its `Base`) |
| Naming.LocalPathParts | src/backup.ts:106 | `LocalPath` `/tmp/<name>/<file>` is `/tmp/` followed by the object key `<name>/<file>`; its parent directory is `/tmp/<name>`, whatever the name holds, and its last segment the file name |
| Naming.DistinctTimestampsDistinctNames | src/backup.ts:103-106 | jobs for one database name at distinct instants get distinct file names, object keys and local paths |
| Naming.DistinctLabelsDistinctPaths | src/backup.ts:106 | jobs whose rendered names differ never share a local path string (jobs with equal names at the same instant do) |
| Naming.Split | src/backup.ts:42 | `split('/')` yields at least one part and no part holds `/` |
| Naming.JoinSplit | src/backup.ts:42 | `Join` of the parts of a split with `/` gives back the string |
| Naming.SplitJoin | src/backup.ts:42 | `Split` undoes `Join` on a non-empty array of `/`-free parts |
| Naming.DirParts | src/backup.ts:42 | for a path holding `/`, `Dir`, `/` and `Base` give back the path, and `Base` holds no `/`; without `/`, `Dir` is the empty string |
| Naming.Lineage | src/backup.ts:47 | the directories a recursive `mkdir` ensures exist include the directory itself, and each is a non-empty prefix of it |
| Naming.LineageMembers | src/backup.ts:47 | they are exactly the directory and its ancestors: the non-empty prefixes that are the directory or are followed there by `/` |
| Config.ItemError | src/env.ts:14-22 | an element makes the `forEach` callback throw exactly when it lacks a truthy `url` or a truthy `name` |
| Config.CheckItems | src/env.ts:14-22 | the `forEach` completes without throwing exactly when every element has a truthy `url` and `name` |
| Config.CheckItemsReportsFirst | src/env.ts:14-22 | the error thrown is the one of the first offending element: a TypeError for null, else the url message, else the name message, with that element's index |
| Config.TryBody | src/env.ts:4-24 | the `try` body returns exactly for an acceptable setting, and then the parsed array itself; a non-string and a non-array throw the generic message, unparsable text a SyntaxError |
| Config.Acceptable | src/env.ts:3-28 | a setting is acceptable exactly when it is a string that parses to an array over which the `forEach` completes |
| Config.Validate | src/env.ts:3-28 | the validator accepts exactly the acceptable settings, returns that parsed array itself, and rejects everything else with the one generic message |
| Config.RejectsNonArrays | src/env.ts:5-12 | a non-string, text that does not parse, and JSON that is not an array are rejected with the generic message |
| Config.MissingUrlIsGeneric | src/env.ts:15-17 | a non-null element without a truthy `url` (object, number, string, boolean or array) throws the url message for its index inside the `try`, and the caller sees only the generic message |
| Config.MissingNameIsGeneric | src/env.ts:19-21 | likewise for an element with a truthy `url` but no truthy `name` |
| Pipeline.TrimEnd | src/backup.ts:53 | `trimEnd` keeps a prefix, removes only white space, and leaves no trailing white space |
| Pipeline.FirstSettleWins | src/backup.ts:86-92 | the first `resolve`/`reject` of a pending promise decides it; a later call of either kind leaves it unchanged |
| Pipeline.Host.DumpToFile | src/backup.ts:38-82 | mkdir is invoked only when the directory is missing and the directory exists afterwards; a tool error rejects with the end-trimmed stderr and skips the archive check; otherwise a prefix length other than 1 rejects, and success carries the warning note exactly when stderr is non-empty |
| Pipeline.Host.UploadToS3 | src/backup.ts:10-36 | the upload is invoked with key `<prefix>/<name>`, and the key is stored exactly when the upload succeeds |
| Pipeline.Host.DeleteFile | src/backup.ts:84-93 | the promise is always fulfilled, via `Settle`: the synchronous `resolve` comes first and the callback's later `reject` is ignored; the file is gone unless `unlink` failed |
| Pipeline.ExpectedOutcome | src/backup.ts:99-113 | a job fails at the dump with the trimmed stderr exactly when the tool failed, with an invalid archive exactly when the prefix length is not 1, fails at the upload exactly when the dump resolved and the upload did not, and completes otherwise |
| Pipeline.Host.BackupOne | src/backup.ts:99-113 | a job's outcome is `ExpectedOutcome`; its calls are `JobCalls`, the keys stored grow by its key exactly when it completed, and the local paths afterwards are `JobEntries` |
| Pipeline.JobCallsMembers | src/backup.ts:99-113 | `JobCalls` holds mkdir exactly when the directory was missing, always the dump, the archive check exactly when the tool did not fail, the upload exactly when the dump resolved, the unlink exactly when the job completed |
| Pipeline.JobEntriesEffect | src/backup.ts:99-113 | after a job (`JobEntries`) its directory exists, its archive remains exactly when the job did not complete or `unlink` failed, and no other path changes except ancestors `mkdir` created |
| Pipeline.Host.Backup | src/backup.ts:95-117 | one job per configured database, each with its `ExpectedOutcome`; the run succeeds exactly when every job does; the calls are the jobs' calls in order and the local paths are those the jobs leave one after another (`RunCalls`, `RunEntries`); the bucket gains exactly the keys of the completed jobs |
| Pipeline.RunStages | src/backup.ts:98-114 | the calls of a run hold each job's stages, job after job |
| Pipeline.RunCallsOfJob | src/backup.ts:98-114 | in a run, each job whose dump resolved uploads its archive under its key, and each completed job unlinks it |
| Pipeline.ArchiveLeftBehind | src/backup.ts:98-114 | after a run, the archive of a job that did not complete or whose `unlink` failed is still on disk, unless a later job wrote the same path |
| Pipeline.JobPathShape | src/backup.ts:103-106 | a job's local path is `/tmp/` followed by its object key, and its directory is `/tmp/<name>` |
| Pipeline.StagesInOrder | src/backup.ts:108-110 | the stages of a job run in the order dump, upload, delete; upload exactly when the dump resolved, delete exactly when the upload resolved too |
| Pipeline.JobStages | src/backup.ts:108-110 | the trace of one job holds exactly the stages its outcome allows, in order |
| Pipeline.StageCounts | src/backup.ts:98-114 | across a run there is exactly one dump per database and one upload per job whose dump resolved |
| Pipeline.UploadedKeysMembers | src/backup.ts:98-114 | a key is stored by a run exactly when some completed job derived it |

## Left out

- The S3 client, its region and custom endpoint, and the streaming upload (src/backup.ts:13-33): a foreign SDK call; its success is a parameter.
- The `pg_dump | gzip` process and the `gzip -cd | head -c1` check (src/backup.ts:51, 58): their error flag, stderr and the number of bytes printed are parameters. Without `pipefail`, the error `exec` reports is the exit status of `gzip`, the last command of the pipeline, so `DumpRun.failed` stands for what `exec` reports, not for whether `pg_dump` failed.
- Pipeline.Host.DumpToFile: assumes the url and the path reach the shell as single words. They are put into the command unquoted (src/backup.ts:51, 58), so a name with a space or another shell-special character makes the shell write elsewhere (a name `my db` redirects to `/tmp/my`). The model does not capture that.
- Pipeline.Host.DumpToFile: a failing `stat` or `mkdir` is not modelled; the directory check is the presence of the path in the set of entries.
- Pipeline.Host.DumpToFile: on an `exec` error the archive path is still added to the entries, but the error can be the shell failing to open the `>` redirection, and then no file exists.
- Pipeline.Host.DeleteFile: removes the path before returning, while in the source the promise is fulfilled before `unlink` completes (src/backup.ts:86-92); `entries` is the state once the pending unlinks have run.
- All `console.log` output, `filesize` and `statSync` (src/backup.ts:66-74): logging only; the warning notice is kept as a flag in the outcome.
- Pipeline.Host.Backup: runs the jobs one after another rather than concurrently under `Promise.all`, and does not model that the overall promise rejects as soon as one job rejects while the other jobs go on. In the source, `map` starts every job's `stat` of its directory in one synchronous pass before any `mkdir` runs (src/backup.ts:99-108, 43), whereas in the model a job sees the directories earlier jobs created: with names `b/c` then `b`, the model's second job finds `/tmp/b` and does not call mkdir, while in the source both jobs usually do. For names without `/` that differ, the jobs touch disjoint paths and keys (DistinctLabelsDistinctPaths), so for them the order does not matter. The validator accepts two elements with the same name (or names that render alike, such as `1` and `"1"`), and all jobs read the clock in the same synchronous pass of `map` (src/backup.ts:99-106), so such jobs usually share the file and the key. Concurrently they then write the same file at once; the sequential loop does not capture that race.
- Paths are compared as strings: `.` and `..` segments are not resolved, so the names `.` and `x/..` give different paths in the model (`/tmp/./backup-….tar.gz`, `/tmp/x/../backup-….tar.gz`) that name the same file on disk.
- Target: its `url` and `name` stand for the template renderings of the validated elements' `url` and `name` (any truthy JSON value, for example an object renders as `[object Object]`). The rendering of JSON values to strings is not modelled, so no function maps the items `Config.Validate` returns to targets.
- `new Date().toISOString()` (src/backup.ts:103): the clock; the ISO string is part of each job's input.
- `envsafe`, its `str`/`bool`/`json` settings and `JSON.parse` (src/env.ts:1, 9, 30-53): library behaviour; the parse result is an input of the validator, and how a non-string value renders in the message is an input string.
- Config.Validate: JSON numbers are reals, so NaN, which `JSON.parse` never yields, is not represented.
