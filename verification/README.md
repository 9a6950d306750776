# AMAT per-file extraction engine, in Dafny

AMAT is an Android forensic acquisition tool. It drives `adb` to copy files
off a phone into a case directory on a workstation. A companion analyzer then
reads that case directory offline. This project models the heart of the tool
as pure Dafny functions and proves properties about them:

- **`Sanitizer`**: `_sanitize_path`, which turns a device path into a
  relative local path that is safe on Windows. Illegal characters are
  replaced, leading dots are replaced, components are capped at 100
  characters, and an over-long result is replaced by a prefix plus `_` plus
  eight hex digits of an MD5 digest.
- **`Stats`**: the acquisition statistics record and `_add_to_stats`.
- **`Extraction`**: `_extract_file_production`. This covers the dedup check,
  the local target (flattened or not), the resume check, directory creation
  with its one flatten retry, and the three strategies in order: direct
  pull, root copy through a staging file, and inline `cat`. It also covers
  post-validation, bookkeeping, and the catch-all fault handler with its
  rate-limited log.
- **`Acquisition`**: the drivers of the engine. These are `find` listings,
  the per-app file selection with its 300-file cap, and the photo, video
  and audio loops with their 2000-file caps.
- **`Volatile`**: the process table. It parses `ps -A -o PID,USER,VSZ,NAME`,
  sorts it by memory with a stable sort, selects the top 50 processes, and
  names their memory-map files.
- **`Analyzer`**: the pure helpers of the offline analyzer. These are the
  package list and its system/third-party split, database discovery,
  app-name derivation, SQLite cell display, text search with line numbers,
  the head/tail log view, and SMS display.
- **`Strings`**: the Python string operations these need, with Python's
  semantics. These are `strip`, `split()`, `split(sep)`, `join`, `int()`,
  slicing, `lower` and `replace`.

The device and the workstation filesystem are oracles passed in as an `Env`
value:

- `pull`, `stat` and `cat` give the device's replies;
- `mkdirFails`, `writeFails` and `unlinkFails` say which local operations
  raise;
- `digest` is the MD5 hex prefix.

The local filesystem is a map from path to size. A call to the engine
returns a `Run`, which holds:

- the outcome;
- the new session (extracted-path set, root flag, staging counter, statistics);
- the new filesystem;
- the device commands issued, in order;
- the log entries written.

The caller sees only whether the outcome is `Extracted`, which is the
source's `True`.

`main.py` and `amat_data_collection.py` carry two copies of the engine. The
model follows `amat_data_collection.py`, which adds two log entries to the
`main.py` version: the "skipped large file" entry and the fault log that
stops after nine errors. Everything else is the same in both files.

Four details of the code shape the model:

- A truncated path is `MAX_PATH_LENGTH - 1` characters long (199 by
  default). The code keeps `MAX_PATH_LENGTH - 10` characters and then
  appends 9 more.
- An oversized result is deleted and logged, and no counter records it.
- A failed directory creation is counted in `pathErrors` on each attempt.
  A failure followed by a failed flatten retry therefore counts twice.
- The zero-size post-validation branch cannot be taken. Each strategy
  already requires a non-empty local file before it reports success. The
  model keeps the branch and proves it dead.

## Model

| member | source | states |
|---|---|---|
| Sanitizer.SanitizeComponent | amat_data_collection.py:174-192 | A non-empty component becomes a valid component: at most 100 characters, no `/`, no illegal character, no leading dot. Character by character, each illegal character and a leading dot become `_`, and everything else is kept. |
| Sanitizer.Sanitize | amat_data_collection.py:162-202 | A joined path within the limit is returned unchanged. A longer one becomes `limit - 1` characters: its own first `limit - 10` characters, then `_`, then the digest of the whole joined string. The result never exceeds the limit and never holds an illegal character. It has no leading `/`, no `//`, no trailing `/` and no component starting with `.`. |
| Sanitizer.SanitizeComponents | amat_data_collection.py:171-194 | Without truncation, splitting the result on `/` gives back exactly the sanitized non-empty components, in order. An input with no non-empty component gives the empty path. |
| Sanitizer.TruncationKeepsDigest | amat_data_collection.py:197-200 | Two truncated paths whose full joined strings have different digests never collide, even when they share the kept prefix. |
| Sanitizer.SanitizeIgnoresLeadingSlashes | amat_data_collection.py:419 | Stripping leading `/` before sanitizing does not change the sanitized components. |
| Sanitizer.SanitizeBasenameIsFlat | amat_data_collection.py:410-416 | A basename sanitizes to a single component with no `/`, so a flattened target lies directly in its directory. |
| Sanitizer.DistinctPathsCanCollide | amat_data_collection.py:179-182 | Sanitizing is not injective: `a:b` and `a?b` both become `a_b`. |
| Stats.AddToStats | amat_data_collection.py:240-256 | Exactly the bucket of a known category grows by the size. The grand total always grows by the size, even for an unknown category. One more file is counted, and no other counter changes. |
| Stats.AddToStatsKeepsBalance | amat_data_collection.py:240-256 | Additions to known categories keep the total equal to the sum of the six buckets. A non-zero addition under an unknown category breaks that equality. |
| Extraction.StagingPathInjective | amat_data_collection.py:446-449 | The staging name `/sdcard/Download/amat_<n>_<digest>.tmp` determines both the counter and the digest. |
| Extraction.TryDirectPull | amat_data_collection.py:438-442 | A private-storage path (`/data/data/`, `/data/user/`) sends nothing and leaves the attempt unchanged. Any other path sends exactly one pull to the local target. The strategy succeeds exactly when that pull returns code 0 and leaves a non-empty file at the target. Only the target is touched. |
| Extraction.TryStagedCopy | amat_data_collection.py:444-462 | Runs only after a failure and only with root; otherwise the attempt is unchanged. It takes the next counter value and sends copy, chmod, pull and remove through that staging file, in that order. It succeeds exactly when the pull from the staging file returns code 0 and leaves a non-empty file at the target. |
| Extraction.InlineCommands | amat_data_collection.py:464-470 | The size query is always sent. `cat` is sent exactly when the reported size parses as an integer strictly between 0 and 5 MiB. |
| Extraction.InlineWrite | amat_data_collection.py:466-477 | The target is written exactly when the reported size parses as an integer strictly between 0 and 5 MiB, `cat` returns code 0 with non-empty output, and the write does not raise. The captured output is then written to the target, and nothing else is touched. |
| Extraction.TryInlineRead | amat_data_collection.py:464-479 | Runs only after both earlier strategies failed. It appends its commands and keeps the counter. It succeeds exactly when the inline write happens, and then leaves that write's filesystem; otherwise the filesystem is unchanged. |
| Extraction.RunChain | amat_data_collection.py:436-479 | The strategies run in order and stop at the first success: a successful direct pull is the chain's result, and so is a successful root copy after a failed pull. The chain succeeds exactly when one of the three strategies succeeds. Whatever the device replies, only the local target is touched, and success means a non-empty local file there. |
| Extraction.RunChainCommands | amat_data_collection.py:436-479 | The chain's commands: the direct pull exactly for non-private paths, and nothing else once it succeeds. A root copy is sent exactly when root is available and the direct pull failed, always to the staging name of the incremented counter, and the counter moves exactly then. `cat` is sent only after a size below the ceiling. |
| Extraction.StagingIsNotLocalPull | amat_data_collection.py:439-449 | A staging path under `/sdcard/` is never a private-storage path, so a staged pull is never mistaken for the direct one. |
| Extraction.CountDatabase | amat_data_collection.py:497-499 | A database adds exactly one to `databasesAcquired`, and nothing else changes. |
| Extraction.Settle | amat_data_collection.py:481-510 | The chain's result alone decides the outcome. A failed chain counts one failed file. A landed file within the size cap is extracted: it is counted in its category, the total and the file count, is remembered as extracted, and counts as a database when its name says so. A landed file over the cap is deleted and logged with its size, and no counter records it; when the delete raises, the call is a fault instead, logged only while verbose with fewer than ten errors. |
| Extraction.SettleAccounted | amat_data_collection.py:481-510 | Every validation outcome keeps the per-call accounting: only success moves the path set and the byte totals, and each failure moves only its own counter. |
| Extraction.ExtractAt | amat_data_collection.py:422-510 | A non-empty file at the target ends the call with nothing sent or changed. A missing file fails on the path exactly when its directory cannot be made, and that counts one path error and nothing else. Otherwise the chain runs from the session's staging counter, its result decides the outcome as in validation, and the full accounting holds. |
| Extraction.AccountedAfterPathError | amat_data_collection.py:427-434 | The accounting still holds across the flatten retry that follows a counted path error. |
| Extraction.Extract | amat_data_collection.py:399-510 | A path already extracted is a duplicate: nothing changes and nothing is sent. Every other call keeps the full accounting. At most two path errors are counted, or one when flattening. Duplicate, resume and path-failure outcomes send nothing and leave the filesystem as it was. |
| Extraction.ExtractRunsChain | amat_data_collection.py:412-504 | For a path not yet extracted, whose target is missing and whose directory can be made, the call runs the chain at that target from the session's counter, and the chain's result decides the outcome. |
| Extraction.ExtractRetriesFlat | amat_data_collection.py:427-434 | When the directory cannot be made, one path error is counted. A call that was not flattened is then exactly the flattened call on that session. A flattened call gives up with a path failure, sends nothing and changes nothing else. |
| Extraction.GoodFileExtracted | amat_data_collection.py:436-504 | When the target is missing, the directory can be made and the chain lands a file within the size cap, the call returns success, remembers the path and counts one more file. |
| Extraction.ExtractCommands | amat_data_collection.py:399-479 | A call sends nothing exactly when it ends as a duplicate, on resume or on a path failure. Whatever path it takes, its commands follow the chain's rules: the direct pull exactly for non-private paths, a root copy only with root and to the staging name of the session's new counter value, and `cat` only after an in-range size. |
| Extraction.ExtractResume | amat_data_collection.py:422-424 | A non-empty file already at the target makes the call a no-op. |
| Extraction.ExtractTwice | amat_data_collection.py:405-407 | After a success, the same device path is a duplicate in any mode and into any directory, and nothing changes. |
| Extraction.FlattenSameBasenameSkips | amat_data_collection.py:412-424 | Flattened, a second device file with the same basename is skipped as already on disk, and it is never pulled. |
| Extraction.FlatSuccessLands | amat_data_collection.py:412-495 | A successful flattened call leaves a non-empty file at the flat target and remembers exactly its own path. |
| Extraction.StagingNamesFresh | amat_data_collection.py:446-449 | Two calls in a row that both stage a copy use different staging files. |
| Acquisition.StripLines | amat_data_collection.py:581 | The kept entries are non-blank, single-line and stripped, and there are no more of them than lines. |
| Acquisition.FileList | amat_data_collection.py:580-581 | A failed `find` yields no files. A successful one yields only listed paths. |
| Acquisition.FileListJoin | amat_data_collection.py:580-581 | A successful listing of one path per line reads back as exactly those paths, in order. |
| Acquisition.Dedup | amat_data_collection.py:594 | No duplicates, the same elements as the input, and never longer than the input. |
| Acquisition.SelectFiles | amat_data_collection.py:594 | At most 300 files, all distinct, all from the listing. |
| Acquisition.SelectFilesCount | amat_data_collection.py:594 | The selection holds every distinct listed path when there are at most 300 of them, and exactly 300 otherwise. |
| Acquisition.ListAppFiles | amat_data_collection.py:566-594 | The three priority queries always go first. The general query is sent exactly when the priority queries found fewer than 300 entries. The files are the capped, de-duplicated selection of everything listed. |
| Acquisition.ListedFiles | amat_data_collection.py:576-591 | The priority files come first, and nothing follows them once there are 300 or more. |
| Acquisition.ChooseDataPath | amat_data_collection.py:555-564 | The first data path whose probe printed `EXISTS` is chosen, `/data/data/<pkg>` before `/data/user/0/<pkg>`. There is none exactly when neither printed it. |
| Acquisition.AppDirName | amat_data_collection.py:552 | The app directory name is a prefix of the sanitized package name, at most 100 characters, with no illegal character. |
| Acquisition.AppDirNameFlat | amat_data_collection.py:552-553 | A package name gives a single directory component. |
| Acquisition.ExtractEach | amat_data_collection.py:596-597 | Over a batch, each `True` return adds one new path from the batch to the extracted set and one file to the count. No counter decreases, the drivers' own counters are untouched, and a balanced byte account stays balanced. |
| Acquisition.ExtendBatch | amat_data_collection.py:596-597 | One more call keeps the batch accounting. |
| Acquisition.ExtractEachDistinct | amat_data_collection.py:596-597 | A batch returns `True` at most once per distinct path, however often a path is listed. |
| Acquisition.AcquireApp | amat_data_collection.py:550-599 | An app with no existing data path changes nothing. Otherwise only the selection of the first existing path is extracted, with the batch accounting, and at most 300 files are acquired. |
| Acquisition.BumpMedia | amat_data_collection.py:638-640 | A success counts one file of its own media kind. Other kinds, totals and bytes are unchanged. |
| Acquisition.AcquireMediaKind | amat_data_collection.py:616-690 | Photos and videos stop at 2000 acquired files each, and audio has no cap. A file is skipped only because the cap was reached. Every acquired file is counted once in its kind, in the file count and in the extracted set. The search paths' listings are worked through in order, the count carried from one into the next, and the result is exactly that of reading them one after the other as a single listing. |
| Acquisition.AcquireMediaListing | amat_data_collection.py:631-640 | Within one search path, files are taken front to back, each extracted flat under `media`, until the listing ends or the cap is reached; the result is exactly that reading. Fewer than all are tried only when the cap is hit, and every newly remembered path is one of the files tried. |
| Acquisition.ListingStep | amat_data_collection.py:631-640 | One more file keeps the loop's state: the counts, the cap, the rest of the in-order reading, and the origin of every new path. |
| Acquisition.MediaNextExtracted | amat_data_collection.py:638-640 | One extraction remembers at most the path it was given. |
| Acquisition.MediaScanConcat | amat_data_collection.py:631-640 | Reading two listings in turn, the batch carried over, is the same as reading them as one: once the cap is reached, the second listing tries nothing. |
| Volatile.ParsePsLine | amat_data_collection.py:324-335 | A line yields a process exactly when it has at least four fields and an integer first field. Fields map to pid, user and name. Memory is the third field when that field is all digits, and 0 otherwise. |
| Volatile.ParseRows | amat_data_collection.py:324-335 | At most one process per line, each with a single-word user and name. |
| Volatile.ParsePs | amat_data_collection.py:324 | The first line is skipped as the header, so there are fewer processes than lines. |
| Volatile.ParseFormatRow | amat_data_collection.py:326-333 | A row printed from a process parses back to that process. |
| Volatile.ParsePsListing | amat_data_collection.py:320-335 | A header followed by one printed row per process parses back to exactly those processes, in order. |
| Volatile.SortByMemory | amat_data_collection.py:341 | The result is ordered by memory, largest first, and is a permutation of the input. |
| Volatile.SortStable | amat_data_collection.py:341 | The sort is stable: processes with equal memory keep their `ps` order. |
| Volatile.ScanProcesses | amat_data_collection.py:320-351 | A failed `ps` changes nothing. Otherwise the result is the parsed table sorted by memory, and `processesScanned` is its length. The saved process list counts as one more volatile file of its size: the volatile bucket and the byte total grow by that size and the file count by one. Balanced statistics stay balanced. |
| Volatile.TopProcesses | amat_data_collection.py:355 | The first `min(50, n)` processes. |
| Volatile.TopProcessesLargest | amat_data_collection.py:341-355 | In a sorted table, every chosen process uses at least as much memory as every process left out. |
| Volatile.SafeProcessName | amat_data_collection.py:364-365 | At most 50 characters, no `/` and no illegal character. |
| Volatile.MapsFileNamePid | amat_data_collection.py:367 | The pid reads back from a map file name as its second `_`-separated field. |
| Volatile.MapsFileNamesDistinct | amat_data_collection.py:367 | Distinct pids give distinct map files, whatever the process names. |
| Analyzer.PackageBody | data_analyzer.py:530-532 | A line has a body exactly when it starts with `package:` and its stripped rest holds `=`. |
| Analyzer.ParsePackageLineAsWritten | data_analyzer.py:528-534 | The parser as written cuts the body at its first `=`: the path holds no `=`. |
| Analyzer.ParsePackageLine | data_analyzer.py:528-534 | The corrected parser cuts at the last `=`: the name holds no `=`, and path, `=` and name rebuild the body. |
| Analyzer.ParsePackageLineRoundTrip | data_analyzer.py:528-534 | Every well-formed `package:<path>=<name>` line parses back to exactly that name and path. |
| Analyzer.ParsersAgreeWithoutEqualsInPath | data_analyzer.py:533 | On lines whose path holds no `=`, the two parsers agree. |
| Analyzer.AsWrittenMisparsesModernPath | data_analyzer.py:533-540 | A modern install path with `==` in its directory is misparsed as written: the system package `com.android.phone` comes back as a non-system name. The corrected parser reads the line back. |
| Analyzer.ParsePackages | data_analyzer.py:528-534 | The corrected reading of the listing, cut at the last `=`, which the rest of the model uses: at most one package per line, and no name holds `=`. |
| Analyzer.ParsePackagesAsWritten | data_analyzer.py:528-534 | The listing as the code reads it, cut at the first `=`: at most one package per line, and no path holds `=`. |
| Analyzer.ParsePackagesSameCount | data_analyzer.py:528-536 | Both readings find the same number of packages, so the printed total does not depend on where the line is cut. |
| Analyzer.SystemMembers | data_analyzer.py:539 | A package is in the system list exactly when it is listed and its name starts with `com.android.` or `android.`. |
| Analyzer.ThirdParty | data_analyzer.py:540 | No third-party entry is in the system list. |
| Analyzer.PackagesPartition | data_analyzer.py:539-540 | Third-party is exactly the non-system packages in listing order, and together the two lists hold every package as often as the listing does. |
| Analyzer.Suffix | data_analyzer.py:183 | A suffix starts at the name's last dot, is a proper ending of the name that is not the whole name, has no other dot, and has at least one character after the dot. |
| Analyzer.SuffixOfExtension | data_analyzer.py:183 | A name has suffix `.db` (or `.sqlite`) exactly when it ends with it and has something before it. |
| Analyzer.GlobbedMembers | data_analyzer.py:179-180 | A glob lists exactly the walked files whose name ends with the pattern. |
| Analyzer.KeepMembers | data_analyzer.py:183 | The filter keeps exactly the files with suffix `.db` or `.sqlite`. |
| Analyzer.FindDatabasesExactly | data_analyzer.py:173-183 | Discovery finds exactly the walked files with suffix `.db` or `.sqlite`, and never a `-wal` or `-shm` file. |
| Analyzer.AppName | data_analyzer.py:190-198 | The app name is the component right after the first `02_APP_DATA`, or `Unknown`. |
| Analyzer.AppNameOf | data_analyzer.py:190-198 | `root/02_APP_DATA/<app>/...` belongs to `<app>` when the root has no `02_APP_DATA`. A path ending in that component, or without it, belongs to `Unknown`. |
| Analyzer.RenderCell | data_analyzer.py:260-271 | NULL shows as `NULL`. A blob shows as its byte count. Other values are shown whole up to 50 characters, and longer ones as 53 characters ending in `...`. |
| Analyzer.RenderCellBounds | data_analyzer.py:266-271 | A shown value never exceeds 53 characters and starts with its first 50. |
| Analyzer.BlobPlaceholderSize | data_analyzer.py:264-265 | The blob size reads back from its placeholder. |
| Analyzer.MatchingLineNumbers | data_analyzer.py:583-585 | The 1-based numbers of exactly the lines that mention the term, case-insensitively, in increasing order. |
| Analyzer.MatchLines | data_analyzer.py:580-585 | Each match is a line that mentions the term, with its stripped text, and the matches are in line order. No matching line is missing. |
| Analyzer.SearchContent | data_analyzer.py:578-587 | A file is reported exactly when its whole content mentions the term. Then every line of `content.split('\n')` that mentions it is reported exactly once, in line order, with its 1-based number and its stripped text. |
| Analyzer.LineMentionMeansContentMention | data_analyzer.py:578-585 | The whole-content check never hides a file that has a matching line. |
| Analyzer.DisplayMatches | data_analyzer.py:598-604 | The first five matches are shown, each cut to 100 characters plus `...`, and the shown and "more" counts add up to all matches. |
| Analyzer.ViewLog | data_analyzer.py:499-507 | The first 20 lines are shown, and the last 20 only when the file has more than 40 lines. |
| Analyzer.ShowLines | data_analyzer.py:500-507 | The shown text is the right-stripped line at each index. |
| Analyzer.ViewLogShown | data_analyzer.py:499-507 | No line is shown twice. A line is shown exactly when it is among the first 20 or, in a file of more than 40 lines, among the last 20. Lines 21 to 40 of a 21-to-40-line file are never shown. |
| Analyzer.MessageLabel | data_analyzer.py:401 | `Received` exactly for type 1, and `Sent` for everything else, including a missing type. |
| Analyzer.MessageBody | data_analyzer.py:403-405 | A body over 100 characters becomes its first 100 characters plus `...`. Shorter, empty or missing bodies are kept. |

## Left out

- `adb` and `subprocess` are replaced by reply oracles. Left out: timeouts, the `su -c` quoting, stderr, the `-s <device>` selector, and the root probe. `hasRoot` is a session field.
- MD5 is an arbitrary function onto eight lower-case hex digits (`Digest8`). Its collision resistance is not modelled, so `TruncationKeepsDigest` assumes the digests differ.
- Sizes are whole bytes instead of floating-point megabytes. `size_mb == 0` and `size_mb > MAX_FILE_SIZE_MB` are exact integer comparisons. This is faithful for any size below 2^53 bytes.
- Analyzer.ParsePackages: cuts each line at the last `=`, not the first as the code does; the code's reading is `Analyzer.ParsePackagesAsWritten` (see Findings).
- Volatile.ScanProcesses: the size of the saved `process_list.txt` is a parameter, because it depends on the text layout and the file system.
- Extraction.InlineWrite: the written size is the number of characters `cat` printed. The UTF-8 re-encoding with `errors='replace'` is not modelled.
- Dedup: `list(set(...))` has no defined order. The model keeps first occurrences, which is one order Python may produce. `SelectFilesCount` does not depend on the order.
- Lower-casing and `isspace`/`isdigit` use ASCII digits and the Python whitespace set. Unicode case folding and non-ASCII digits are not modelled.
- Only a failing `unlink` is modelled as an unexpected fault. Other exceptions inside the `try` block cannot arise on the model's total oracles. A failing inline write is swallowed, as in the code.
- `int()` is modelled as optional surrounding whitespace, an optional sign and ASCII digits. Python also accepts `_` between digits and non-ASCII digits. A `ps` line whose memory field `isdigit()` accepts but `int()` rejects is skipped by the source; the model treats such fields as non-digits.
- Around the search, the directory walk, the skip of files above the analyzer's size limit and the text decoding of each file are not modelled. The search is modelled per file content.
- The loop of `acquire_app_data` over the package list, and its `apps_processed` counter, are not modelled. One app directory is modelled per call.
- Reports, JSON output, printing, menus, SQLite queries, datetime formatting and `KeyboardInterrupt` handling are not modelled.
- The memory-map loop's retry without root, its `len(stdout) > 100` check and its file writes are not modelled. So are `meminfo`, documents, downloads, WhatsApp, browser data and system logs. Only the names of the map files and the choice of processes are modelled.
- The `find ... | head -N` limits are applied by the device and are not modelled. A listing is whatever the oracle returns.
- The variant of database discovery in `main.py` globs only `.db` and `.sqlite`, with no suffix filter. It is not modelled separately.
- The unreachable `parts[-1]` fallback of the `ps` parser for the name is not modelled, because four or more parts always have a fourth.

## Findings

| source | as written | input that shows it | evidently intended | confidence | as-written member | corrected member |
|---|---|---|---|---|---|---|
| data_analyzer.py:533 (also main.py:1366) | `path, name = pkg.split('=', 1)` cuts a `package:<path>=<name>` line at its first `=` | `package:/data/app/~~Q==/base.apk=com.android.phone`, the form Android 11 and later print, with `==` in the random directory name. The name comes out as `=/base.apk=com.android.phone`, so a system package is listed as third-party. | Cut at the last `=`, since package names never contain `=`. | not executed | Analyzer.AsWrittenMisparsesModernPath | Analyzer.ParsePackageLineRoundTrip |
