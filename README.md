# tinypng-compress, modelled in Dafny

`tinypng-compress` is a command-line tool. It walks an image directory, sends each image to the TinyPNG compression service, and writes the smaller file back in place. A JSON ledger maps each path to the MD5 digest of its content after compression. A file whose content still matches its ledger digest is skipped on later runs. This project models the tool's one source file, `packages/tinypng-compress/tinypng-compress.js`, and proves what it does:

- `types.dfy` holds the shared value types. A path is its list of components, file content is a byte sequence, and a digest is a string.
- `pathnames.dfy` holds the extension filter both the worker and the scanner use. It covers Node's `extname` on one name and `toLowerCase`.
- `config.dfy` holds the default configuration, the `{ ...defaultConfig, ...parsed }` merge, `loadConfig` and the API-key guard of `main`.
- `worker.dfy` models `compressFile`. `Step` is a pure function from a world (files on disk, ledger, uploads made) to the new world and the settled promise. `CompressFile` is a method that updates the shared `Records` ledger and the `Host` (disk, uploads, saved ledgers) in place. It is proved to follow `Step` exactly. The lemmas show:
  - that a worker reads and writes only its own path's file and ledger entry (`StepIsLocal`, `StepKeepsOtherKeys`), which is why a batch's workers on distinct paths can be run one after another in place of `Promise.allSettled`, and that two whole workers on different paths commute (`DisjointWorkersCommute`);
  - that re-running a worker right after a completed upload is a dedup skip.
- `batches.dfy` models `compressFilesInBatches`:
  - `CompressBatch` runs one slice's workers in slice order;
  - `CompressSlice` also counts the slice's successes and saves the ledger;
  - `CompressFilesInBatches` is the `for (i = 0; i < n; i += k)` loop over slices.

  The loop is proved against two specifications:
  - `Run`, the workers of a list run one after another;
  - `SavedLog`, the ledger as it stands at the end of each slice.

  Lemmas give:
  - the slices' shape and number, ceil(n/k);
  - the count's meaning;
  - that uploads only ever come from listed paths.
- `scanner.dfy` models `getAllFiles`. A recursive method loops over a directory listing given as a tree of entries. It is proved equal to the function `Scan`. Lemmas about `Scan` give the following:
  - It is sound and complete with respect to an independent reachability predicate (`Finds`).
  - It rejects exactly when it would enter an unlistable directory.
  - It never goes under `.next`.
  - It only returns paths the worker's filter accepts.
  - It is depth-first, in listing order.
- `tool.dfy` models `loadRecords` and `main`, composing all of the above.

The code never checks that `concurrentLimit` is at least 1. With a smaller limit and a non-empty list the loop never ends, and the model reports `Stalled`. Every completed upload writes its ledger entry whatever the verdict, because the entry is written at lines 84-89, before the verdict is computed at line 92.

## Model

| member | source | states |
|---|---|---|
| PathNames.ExtOfNameCharacterised | packages/tinypng-compress/tinypng-compress.js:59 | `extname` of a name is non-empty exactly when the name is not `..` and has a dot after its first character. It is then the suffix from the last dot, and it starts with `.` |
| PathNames.JoinedPathAccepted | packages/tinypng-compress/tinypng-compress.js:113-121 | the worker's filter on `join(dir, name)` accepts exactly when the scanner's filter on `name` does |
| Config.Merge | packages/tinypng-compress/tinypng-compress.js:22 | every key present in the parsed file wins, and every absent key keeps its default |
| Config.MergeLaws | packages/tinypng-compress/tinypng-compress.js:22 | merging no keys gives the base, merging all keys gives the file's values, and merging twice is merging once |
| Config.LoadConfig | packages/tinypng-compress/tinypng-compress.js:19-27 | a missing or unparsable file gives the defaults (`""`, `./images`, `.png/.jpg/.jpeg`, 5). Otherwise the file's keys override the defaults |
| Config.FreshConfigHasNoKey | packages/tinypng-compress/tinypng-compress.js:153-159 | without a configuration file, or with one that sets no key, the `apiKey` guard stops the run |
| Worker.RatioOf | packages/tinypng-compress/tinypng-compress.js:80-81 | the ratio is finite exactly when the original is non-empty, and its value `100 * saved / original` is then the real number `((orig - comp) / orig) * 100`. It is NaN exactly when both sizes are 0, and -Infinity otherwise |
| Worker.RatioComparesAsPercentage | packages/tinypng-compress/tinypng-compress.js:81-92 | for a non-empty original, `Exceeds(ratio, x)` and `Below(ratio, x)`, as the verdict uses them, hold exactly when the real percentage `((orig - comp) / orig) * 100` is above, respectively below, `x` |
| Worker.IsValidCompression | packages/tinypng-compress/tinypng-compress.js:92 | for a non-empty original, valid iff `10*(orig-comp) > orig`, or `10*(orig-comp) < orig` and `comp > 5120`. Exactly 10% savings is never valid. For an empty original (NaN or -Infinity ratio), valid iff `comp > 5120` |
| Worker.Step | packages/tinypng-compress/tinypng-compress.js:58-104 | a rejected extension or a dedup hit gives `false` and changes nothing; an unreadable file rejects and changes nothing; the service is called exactly when all checks pass; only the path's own file and entry change; a failed upload gives `false` and changes neither; a completed upload stores the new bytes and their digest, size and ratio, and returns the verdict; `true` only ever comes from such an upload (details below) |
| Worker.RerunIsSkipped | packages/tinypng-compress/tinypng-compress.js:66-89 | after a completed upload the ledger holds the new content's digest, so the next call on the unchanged file skips, whatever the service would answer |
| Worker.StepIsLocal | packages/tinypng-compress/tinypng-compress.js:58-104 | a worker reads only its own file and ledger entry. Two worlds that agree there give the same outcome, the same new values at that key, and the same upload decision |
| Worker.StepKeepsOtherKeys | packages/tinypng-compress/tinypng-compress.js:84-89 | a worker leaves every other path's file and ledger entry as they were |
| Worker.DisjointWorkersCommute | packages/tinypng-compress/tinypng-compress.js:136-138 | two workers on different paths give the same files, ledger, outcomes and multiset of uploads in either order |
| Worker.CompressFile | packages/tinypng-compress/tinypng-compress.js:58-104 | the in-place `compressFile` leaves the disk, the shared ledger, the uploads and the outcome exactly as `Step` says, and saves nothing |
| Batches.BatchCount | packages/tinypng-compress/tinypng-compress.js:133 | the number of loop passes is the least `b` whose start `b*k` (as `BatchStart`) reaches `n` |
| Batches.BatchCountIsCeiling | packages/tinypng-compress/tinypng-compress.js:133 | that number is ceil(n/k): `b*k >= n` and `(b-1)*k < n` |
| Batches.SliceCount | packages/tinypng-compress/tinypng-compress.js:133-134 | there are exactly ceil((n-i)/k) slices |
| Batches.SliceFromAt | packages/tinypng-compress/tinypng-compress.js:133-134 | the j-th slice is `files.slice(i + j*k, i + j*k + k)`, clamped at the end of the list, and it starts inside the list |
| Batches.SliceSizes | packages/tinypng-compress/tinypng-compress.js:134 | every slice holds between 1 and k paths, and every slice but the last holds exactly k |
| Batches.SlicesCoverList | packages/tinypng-compress/tinypng-compress.js:133-134 | the slices concatenated in order give back the list: no gap, no overlap, no reordering |
| Batches.SlicesPrefix | packages/tinypng-compress/tinypng-compress.js:133-134 | the first `j + 1` slices together are the list up to the end of slice `j`, `files[i .. min(i + j*k + k, n)]` |
| Batches.SevenFilesInThrees | packages/tinypng-compress/tinypng-compress.js:133-145 | seven files with a limit of three give slices `[0,3)`, `[3,6)`, `[6,7)`, so the ledger is saved three times |
| Batches.CountSuccesses | packages/tinypng-compress/tinypng-compress.js:140-142 | the count of settled results that are fulfilled with `true` is at most the number of results |
| Batches.NoSuccesses | packages/tinypng-compress/tinypng-compress.js:140-142 | the count is 0 exactly when no result is fulfilled with `true` |
| Batches.Run | packages/tinypng-compress/tinypng-compress.js:136-138 | running the workers of `files[lo..hi]` in order settles exactly `hi - lo` promises |
| Batches.RunPrefix | packages/tinypng-compress/tinypng-compress.js:136-138 | the outcomes of the first workers do not depend on the workers after them |
| Batches.RunOutcomeAt | packages/tinypng-compress/tinypng-compress.js:136-138 | the outcome reported for `files[j]` is that of its worker, run on the world the workers before it left |
| Batches.RunSplit | packages/tinypng-compress/tinypng-compress.js:133-138 | running a list is running its first part, then its second part from the world the first part leaves. The outcomes are concatenated |
| Batches.RunKeepsUnlisted | packages/tinypng-compress/tinypng-compress.js:136-138 | a path that no worker of the run was given keeps its file and its ledger entry |
| Batches.CompressJobUploadsOwnPath | packages/tinypng-compress/tinypng-compress.js:71-100 | a `compressFile` worker appends its own path to the uploads or appends nothing, and it succeeds only after uploading |
| Batches.RunUploadsListed | packages/tinypng-compress/tinypng-compress.js:136-138 | a run only appends to the uploads, and every path it uploads is one of the paths it was given |
| Batches.SuccessesAreUploads | packages/tinypng-compress/tinypng-compress.js:140-142 | a run reports no more successes than it made uploads |
| Batches.SaveRecords | packages/tinypng-compress/tinypng-compress.js:40-42 | a save appends the whole current ledger to the record file's history and touches nothing else |
| Batches.CompressBatch | packages/tinypng-compress/tinypng-compress.js:136-138 | the slice's workers leave the world, and report the outcomes, that `Run` gives for the slice. Nothing is saved |
| Batches.Successes | packages/tinypng-compress/tinypng-compress.js:140-142 | a run's successes number at most its jobs |
| Batches.SuccessesCounted | packages/tinypng-compress/tinypng-compress.js:140-142 | filtering the settled results for fulfilled `true` counts exactly the jobs that succeeded |
| Batches.CompressSlice | packages/tinypng-compress/tinypng-compress.js:134-145 | one loop pass runs the slice, returns its number of successes, and saves the ledger once |
| Batches.SavedLog | packages/tinypng-compress/tinypng-compress.js:144-145 | after `b` slices the record file has been written exactly `b` more times |
| Batches.SavedLogAt | packages/tinypng-compress/tinypng-compress.js:144-145 | earlier saves are kept. The j-th new save is the ledger as it stands once every path up to the end of slice j has been handled |
| Batches.SavedLogBySlices | packages/tinypng-compress/tinypng-compress.js:133-145 | there are as many saves as slices of `SlicesFrom(files, k, 0)`, and the j-th save is the ledger after the workers of exactly the first `j + 1` slices, a prefix of the list |
| Batches.SavedLogLast | packages/tinypng-compress/tinypng-compress.js:144-145 | for a non-empty list, the last save holds the ledger of the whole run |
| Batches.BatchLoop | packages/tinypng-compress/tinypng-compress.js:131-147 | the loop never lowers the count, and it only appends saves: the saves already written are kept |
| Batches.BatchLoopMeaning | packages/tinypng-compress/tinypng-compress.js:129-149 | the loop leaves the world of one sequential run over the whole list. Its count is that run's number of successes, and it saves once per slice, ceil(n/k) times |
| Batches.CompressFilesInBatches | packages/tinypng-compress/tinypng-compress.js:129-150 | with `concurrentLimit >= 1`: disk, ledger and uploads end as after running every worker in list order. The returned count is the number of results fulfilled with `true`, and the record file gets one save per slice, each holding the ledger at the end of its slice |
| Scanner.GetAllFiles | packages/tinypng-compress/tinypng-compress.js:108-126 | the recursive loop over a listing returns exactly what `Scan` gives, or rejects when the directory itself cannot be listed |
| Scanner.ScanFailureSticks | packages/tinypng-compress/tinypng-compress.js:120 | once a subdirectory's walk has rejected, the whole walk rejects |
| Scanner.ScanFailsExactlyWhenBlocked | packages/tinypng-compress/tinypng-compress.js:110-120 | the walk rejects exactly when it would enter a directory, not named `.next`, whose listing fails |
| Scanner.ScanFindsExactly | packages/tinypng-compress/tinypng-compress.js:108-126 | when the walk resolves, `p` is in the result iff `p` is `dir` followed by names leading through directories not named `.next` to a file whose lower-cased extension is accepted |
| Scanner.ItemFindsExactly | packages/tinypng-compress/tinypng-compress.js:112-123 | one entry adds exactly the paths it leads to: an accepted file's own path, nothing for `.next`, a subdirectory's walk |
| Scanner.ScanConcat | packages/tinypng-compress/tinypng-compress.js:112-124 | depth-first in listing order: the walk of a listing split in two is the first part's result followed by the second's |
| Scanner.ScannedPathsAreKept | packages/tinypng-compress/tinypng-compress.js:114-122 | every returned path lies under `dir`, passes the worker's extension filter, and has no `.next` component below `dir` |
| Scanner.PrunedScanExample | packages/tinypng-compress/tinypng-compress.js:108-126 | a directory holding `a.png`, `.next/b.png` and `c.txt`, walked with `[".png"]`, gives `a.png` alone |
| Tool.NextRunLoadsFinalLedger | packages/tinypng-compress/tinypng-compress.js:29-37 | after a run over a non-empty list, `loadRecords` on the last save gives back the ledger the whole run ended with |
| Tool.CompletedUploadSkippedNextRun | packages/tinypng-compress/tinypng-compress.js:29-37 | a path whose upload completed, and which no later worker of the run was given, is skipped without an upload by the next run that loads the final ledger, as long as its file is unchanged |
| Tool.RunMain | packages/tinypng-compress/tinypng-compress.js:153-180 | an empty key stops the run, a failed listing is caught, and neither compresses or saves anything; otherwise disk, uploads, count and saves are those of the batch loop over the scanned list, only scanned paths are uploaded, and successes never exceed uploads (details below) |

`Worker.Step` states the following:

- A path whose lower-cased extension is not accepted gives `false` and changes nothing.
- A file that cannot be read rejects the promise and changes nothing. This is the only way the promise rejects.
- A file whose ledger digest matches its content gives `false` and changes nothing.
- The service is called exactly when all three checks pass.
- Only the path's own file and ledger entry can change.
- A failed upload changes neither the file nor the ledger, and gives `false`.
- A completed upload does the following:
  - the file gets the new bytes;
  - the entry gets the digest and size of those bytes and the ratio;
  - the outcome is the verdict.
- `true` comes only from such an upload.

`Tool.RunMain` states the following:

- The run stops with `MissingApiKey` iff the key is empty, and with `ScanFailed` iff listing fails.
- It ends in `Stalled` iff the limit is below 1 and files were found. In each of these cases nothing is compressed or saved.
- Otherwise the disk, uploads, count and saves are those of `CompressFilesInBatches` over the scanned list.
- Only scanned paths are uploaded, and no more successes are counted than uploads were made.

## Left out

- The file system, `JSON.parse`/`JSON.stringify` and the configuration file written back on a failed load are left out. The configuration file arrives as parsed keys (or `None`), the record file as a parsed ledger (or `None`), and the directory tree as a value.
- `fs.mkdir` of the image directory is left out. The model is given the listing after it. A failing `mkdir` is not modelled.
- `compressDir` as a string is not turned into a path. `RunMain` takes the directory's components as `root`.
- The TinyPNG service is an input function from path to `Compressed(bytes)` or `Failed`, and MD5 is an input function from bytes to digest. Neither is implemented.
- `fs.stat(...).size` is the length of the byte sequence.
- `logMessage`, the console, ISO timestamps and `toFixed` are left out. The timestamp stored in the ledger is an input string `now`. One `now` stands for every entry written in a run, whereas the code reads the clock again for each file at line 88. No proved property depends on the timestamp.
- `normalize` and `join` are left out as string operations. A path is its list of components, `join(dir, name)` is `dir + [name]`, and `normalize` leaves such a path as it is, since a listing returns no empty names, `.` or `..`.
- `toLowerCase` lowers ASCII letters only.
- Worker.Step: the ratio is kept as an exact fraction (or -Infinity or NaN). The IEEE rounding of `((orig - comp) / orig) * 100` is not modelled. It cannot move a ratio across 10 for files of realistic size. The JSON encoding of non-finite ratios as `null` is not modelled either.
- Worker.Step: every service failure happens before the file is overwritten. A failure after `source.toFile` has written (a failed re-read or `stat`) would change the file but not the ledger, and is not modelled.
- Batches.CompressFilesInBatches: the workers of a slice run one after another in slice order, not interleaved at their `await`s on an event loop. Each worker reads and writes only its own path (`Worker.StepIsLocal`, `Worker.StepKeepsOtherKeys`), and two whole workers on distinct paths commute (`Worker.DisjointWorkersCommute`). If one slice listed a path twice, both workers in the code could pass the dedup check at line 67 and upload. In the model the second worker sees the first one's ledger entry and skips. `readdir` never lists a name twice, so the scanner cannot produce such a list.
- Batches.CompressFilesInBatches: it requires `concurrentLimit >= 1`. With a smaller limit and a non-empty list the JavaScript loop never ends. A limit of 0 re-saves the ledger forever. A negative limit first compresses the slice `files.slice(0, k)` counted from the end. `Tool.RunMain` reports `Stalled` without modelling those passes. Non-integer limits are not modelled.
- Configuration values of other JSON types (a numeric `apiKey`, a string `concurrentLimit`) are not modelled. Every key has its documented type.
- A failing `saveRecords` write, which would reject and reach the `catch` of `main`, is not modelled.
- The directory tree and the file contents on disk are independent inputs. A listed file missing from the disk makes its worker reject, as the MD5 read outside the `try` does.
