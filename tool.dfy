/**
 * `main`: load the configuration, stop without an API key, load the
 * ledger, list the image directory and compress what it holds in batches.
 */
module Tool {
  import opened Types
  import opened Config
  import opened Worker
  import opened Scanner
  import opened Batches

  /** How a run of the tool ends. */
  datatype RunResult =
    | MissingApiKey               // the configuration has no API key: nothing else happens
    | ScanFailed                  // listing a directory failed: the error is logged, nothing is compressed
    | Stalled                     // a batch size below 1 never gets through a non-empty list
    | Finished(compressedCount: nat)

  /** `loadRecords`: the parsed record file, or an empty ledger when it is missing or does not parse. */
  function LoadRecords(file: Option<map<Path, Record>>): (ledger: map<Path, Record>)
    ensures file.Some? ==> ledger == file.value
    ensures file.None? ==> ledger == map[]
  {
    if file.Some? then file.value else map[]
  }

  /**
   * The record file the next run loads is the ledger this run ended with:
   * after a run over a non-empty list, the last save read back by
   * `LoadRecords` is the ledger of every worker run in list order.
   */
  lemma NextRunLoadsFinalLedger(log: seq<map<Path, Record>>, w0: World, files: seq<Path>, k: nat, job: Job)
    requires k >= 1 && files != []
    ensures var saved := SavedLog(log, w0, files, k, BatchCount(|files|, k), job);
            saved != [] && LoadRecords(Some(saved[|saved| - 1])) == Run(w0, files, 0, |files|, job).0.records
  {
    SavedLogLast(log, w0, files, k, job);
  }

  /**
   * A path whose worker completed its upload, and which no later worker of
   * the run was given, is skipped by the next run while its file stays as
   * this run left it: the reloaded ledger holds the digest of that file.
   */
  lemma CompletedUploadSkippedNextRun(w0: World, files: seq<Path>, j: nat, extensions: seq<string>,
                                      md5: Bytes -> Digest, service: Path -> Reply, now: string,
                                      uploads: seq<Path>, reply: Reply, later: string)
    requires j < |files| && forall t :: j < t < |files| ==> files[t] != files[j]
    requires Uploads(Run(w0, files, 0, j, CompressJob(extensions, md5, service, now)).0, files[j], extensions, md5)
    requires service(files[j]).Compressed?
    ensures var final := Run(w0, files, 0, |files|, CompressJob(extensions, md5, service, now)).0;
            var next := World(final.files, LoadRecords(Some(final.records)), uploads);
            Step(next, files[j], extensions, md5, reply, later) == (next, Fulfilled(false))
  {
    var job := CompressJob(extensions, md5, service, now);
    var p := files[j];
    var after := Run(w0, files, 0, j + 1, job).0;
    assert after == Step(Run(w0, files, 0, j, job).0, p, extensions, md5, service(p), now).0;
    RunSplit(w0, files, 0, j + 1, |files|, job);
    RunKeepsUnlisted(after, files, j + 1, |files|, p, extensions, md5, service, now);
    var final := Run(w0, files, 0, |files|, job).0;
    assert At(final.files, p) == At(after.files, p) && At(final.records, p) == At(after.records, p);
  }

  /**
   * The `main` function. The configuration and record files arrive parsed
   * (`None` when missing or unreadable); `root` is the configured
   * directory and `rootReadable`/`tree` its listing after `mkdir`.
   */
  method RunMain(configFile: Option<Overrides>, recordFile: Option<map<Path, Record>>,
                 root: Path, rootReadable: bool, tree: seq<Node>, host: Host,
                 md5: Bytes -> Digest, service: Path -> Reply, now: string)
    returns (result: RunResult)
    modifies host
    ensures var config := LoadConfig(configFile);
            var scanned := ScanDir(root, rootReadable, tree, config.extensions);
            && (result == MissingApiKey <==> !HasApiKey(config))
            && (result == ScanFailed <==> HasApiKey(config) && scanned.None?)
            && (result == Stalled <==> HasApiKey(config) && scanned.Some? && scanned.value != [] && config.concurrentLimit < 1)
            && (!result.Finished? ==> host.files == old(host.files) && host.uploads == old(host.uploads)
                                      && host.saveLog == old(host.saveLog))
    ensures result.Finished? ==>
            var config := LoadConfig(configFile);
            var files := ScanDir(root, rootReadable, tree, config.extensions).value;
            var w0 := World(old(host.files), LoadRecords(recordFile), old(host.uploads));
            var job := CompressJob(config.extensions, md5, service, now);
            && (files == [] ==> result.compressedCount == 0 && host.files == old(host.files)
                                && host.uploads == old(host.uploads) && host.saveLog == old(host.saveLog))
            && (files != [] ==>
                 && host.files == Run(w0, files, 0, |files|, job).0.files
                 && host.uploads == Run(w0, files, 0, |files|, job).0.uploads
                 && result.compressedCount == CountSuccesses(Run(w0, files, 0, |files|, job).1)
                 && host.saveLog == SavedLog(old(host.saveLog), w0, files, config.concurrentLimit,
                                             BatchCount(|files|, config.concurrentLimit), job))
    ensures result.Finished? ==>
            var files := ScanDir(root, rootReadable, tree, LoadConfig(configFile).extensions).value;
            && |old(host.uploads)| + result.compressedCount <= |host.uploads|
            && host.uploads[..|old(host.uploads)|] == old(host.uploads)
            && (forall u :: u in host.uploads[|old(host.uploads)|..] ==> u in files)
  {
    var config := LoadConfig(configFile);
    if !HasApiKey(config) {
      return MissingApiKey;
    }
    var records := new Records(LoadRecords(recordFile));
    var found := GetAllFiles(root, rootReadable, tree, config.extensions);
    if found.None? {
      return ScanFailed;
    }
    var files := found.value;
    if files == [] {
      return Finished(0);
    }
    if config.concurrentLimit < 1 {
      return Stalled;
    }
    ghost var w0 := World(host.files, records.entries, host.uploads);
    ghost var job := CompressJob(config.extensions, md5, service, now);
    var compressedCount := CompressFilesInBatches(files, config.concurrentLimit, config.extensions,
                                                  records, host, md5, service, now);
    CompressJobUploadsOwnPath(config.extensions, md5, service, now);
    RunUploadsListed(w0, files, 0, |files|, job);
    SuccessesAreUploads(w0, files, 0, |files|, job);
    SuccessesCounted(w0, files, 0, |files|, job);
    assert files[0..|files|] == files;
    return Finished(compressedCount);
  }
}
