/**
 * `compressFilesInBatches`: the file list cut into consecutive slices of
 * `concurrentLimit` paths, every slice's workers run to completion, the
 * ledger saved after each slice, and the successes counted.
 */
module Batches {
  import opened Types
  import opened Worker

  /** The value of `i` when the loop starts its `j`-th slice: `i += k`, j times. */
  function BatchStart(j: nat, k: nat): nat
  {
    if j == 0 then 0 else BatchStart(j - 1, k) + k
  }

  lemma {:induction false} BatchStartIsProduct(j: nat, k: nat)
    ensures BatchStart(j, k) == j * k
  {
    if j > 0 {
      BatchStartIsProduct(j - 1, k);
      assert (j - 1) * k + k == j * k;
    }
  }

  /**
   * How many times `for (i = 0; i < n; i += k)` runs its body: the least
   * b whose start reaches n, that is ceil(n / k).
   */
  function BatchCount(n: nat, k: nat): (b: nat)
    requires k >= 1
    ensures BatchStart(b, k) >= n
    ensures b == 0 || BatchStart(b - 1, k) < n
    decreases n
  {
    if n == 0 then 0
    else if n <= k then 1
    else
      var b' := BatchCount(n - k, k);
      BatchStartShift(b', k);
      b' + 1
  }

  /** Starting one slice later is starting k paths further on. */
  lemma {:induction false} BatchStartShift(b: nat, k: nat)
    ensures BatchStart(b + 1, k) == BatchStart(b, k) + k
    ensures b > 0 ==> BatchStart(b, k) == BatchStart(b - 1, k) + k
  {
  }

  /** The count is exact: ceil(n / k), in the words of the product. */
  lemma BatchCountIsCeiling(n: nat, k: nat)
    requires k >= 1
    ensures var b := BatchCount(n, k); b * k >= n && (b == 0 || (b - 1) * k < n)
  {
    var b := BatchCount(n, k);
    BatchStartIsProduct(b, k);
    if b > 0 {
      BatchStartIsProduct(b - 1, k);
    }
  }

  /** No other count stops the loop: a start that reaches n after one that does not pins b down. */
  lemma {:induction false} BatchCountExact(n: nat, k: nat, b: nat)
    requires k >= 1 && BatchStart(b, k) >= n && (b == 0 || BatchStart(b - 1, k) < n)
    ensures BatchCount(n, k) == b
    decreases n
  {
    if n > k {
      if b >= 2 {
        BatchStartShift(b - 1, k);
        BatchStartShift(b - 2, k);
        BatchCountExact(n - k, k, b - 1);
      }
    }
  }

  /**
   * The slices `files.slice(i, i + k)` the loop takes from start `i` on,
   * `i` stepping by k while it is below |files| (`slice` clamps the end).
   */
  function SlicesFrom<T>(files: seq<T>, k: nat, i: nat): seq<seq<T>>
    requires k >= 1 && i <= |files|
    decreases |files| - i
  {
    if i == |files| then []
    else
      var end := Min(i + k, |files|);
      [files[i..end]] + SlicesFrom(files, k, end)
  }

  /** There are as many slices as the loop runs its body: ceil((|files| - i) / k). */
  lemma {:induction false} SliceCount<T>(files: seq<T>, k: nat, i: nat)
    requires k >= 1 && i <= |files|
    ensures |SlicesFrom(files, k, i)| == BatchCount(|files| - i, k)
    decreases |files| - i
  {
    if i < |files| {
      SliceCount(files, k, Min(i + k, |files|));
    }
  }

  /**
   * The j-th slice is `files.slice(i + j * k, i + j * k + k)`, clamped at the
   * end of the list as `slice` does; `compressFilesInBatches` starts at i = 0.
   */
  lemma SliceFromAt<T>(files: seq<T>, k: nat, i: nat, j: nat)
    requires k >= 1 && i <= |files| && j < |SlicesFrom(files, k, i)|
    ensures i + BatchStart(j, k) < |files|
    ensures SlicesFrom(files, k, i)[j] == files[i + BatchStart(j, k) .. Min(i + BatchStart(j, k) + k, |files|)]
  {
    SliceStartingAt(files, k, i, j, i + BatchStart(j, k));
  }

  /** SliceFromAt with the slice's start `s` named, so each step reuses the same slice. */
  lemma {:induction false} SliceStartingAt<T>(files: seq<T>, k: nat, i: nat, j: nat, s: nat)
    requires k >= 1 && i <= |files| && j < |SlicesFrom(files, k, i)|
    requires s == i + BatchStart(j, k)
    ensures s < |files|
    ensures SlicesFrom(files, k, i)[j] == files[s .. Min(s + k, |files|)]
    decreases j
  {
    if j > 0 {
      var end := Min(i + k, |files|);
      var rest := SlicesFrom(files, k, end);
      assert SlicesFrom(files, k, i)[j] == rest[j - 1];
      BatchStartShift(j - 1, k);
      SliceStartingAt(files, k, i + k, j - 1, s);
    }
  }

  /** Seven files in slices of three: `[0, 3)`, `[3, 6)` and `[6, 7)`, so the ledger is saved three times. */
  lemma SevenFilesInThrees<T>(files: seq<T>)
    requires |files| == 7
    ensures SlicesFrom(files, 3, 0) == [files[0..3], files[3..6], files[6..7]]
    ensures BatchCount(7, 3) == 3
  {
    assert SlicesFrom(files, 3, 6) == [files[6..7]];
  }

  /** Every slice is non-empty and holds at most k paths; all but the last hold exactly k. */
  lemma SliceSizes<T>(files: seq<T>, k: nat, i: nat, j: nat)
    requires k >= 1 && i <= |files| && j < |SlicesFrom(files, k, i)|
    ensures 0 < |SlicesFrom(files, k, i)[j]| <= k
    ensures j < |SlicesFrom(files, k, i)| - 1 ==> |SlicesFrom(files, k, i)[j]| == k
  {
    SliceFromAt(files, k, i, j);
    var b := |SlicesFrom(files, k, i)|;
    if j < b - 1 {
      SliceFromAt(files, k, i, b - 1);
      BatchStartGrows(j + 1, b - 1, k);
      BatchStartShift(j, k);
    }
  }

  /** Later slices start further on. */
  lemma {:induction false} BatchStartGrows(j: nat, j': nat, k: nat)
    requires j <= j'
    ensures BatchStart(j, k) <= BatchStart(j', k)
    decreases j'
  {
    if j < j' {
      BatchStartGrows(j, j' - 1, k);
    }
  }

  function Concat<T>(bs: seq<seq<T>>): seq<T>
  {
    if bs == [] then [] else bs[0] + Concat(bs[1..])
  }

  /** The slices cover the list from i on, in order, without gaps or overlaps. */
  lemma {:induction false} SlicesCoverList<T>(files: seq<T>, k: nat, i: nat)
    requires k >= 1 && i <= |files|
    ensures Concat(SlicesFrom(files, k, i)) == files[i..]
    decreases |files| - i
  {
    if i < |files| {
      var end := Min(i + k, |files|);
      SlicesCoverList(files, k, end);
      var bs := SlicesFrom(files, k, i);
      assert bs[1..] == SlicesFrom(files, k, end);
      assert files[i..] == files[i..end] + files[end..];
    }
  }

  /** The first `j + 1` slices together are the list from `i` up to the end of slice `j`. */
  lemma {:induction false} SlicesPrefix<T>(files: seq<T>, k: nat, i: nat, j: nat)
    requires k >= 1 && i <= |files| && j < |SlicesFrom(files, k, i)|
    ensures i + BatchStart(j, k) < |files|
    ensures Concat(SlicesFrom(files, k, i)[..j + 1]) == files[i .. Min(i + BatchStart(j, k) + k, |files|)]
    decreases j
  {
    var end := Min(i + k, |files|);
    var bs := SlicesFrom(files, k, i);
    assert bs[..j + 1][1..] == SlicesFrom(files, k, end)[..j];
    if j == 0 {
      assert Concat(bs[..1]) == bs[0] + Concat([]);
    } else {
      assert end == i + k;
      SlicesPrefix(files, k, end, j - 1);
      BatchStartShift(j - 1, k);
      var last := Min(i + BatchStart(j, k) + k, |files|);
      assert files[i..end] + files[end..last] == files[i..last];
    }
  }

  /** The number of workers whose promise fulfilled with `true`. */
  function CountSuccesses(outcomes: seq<Outcome>): (n: nat)
    ensures n <= |outcomes|
  {
    if outcomes == [] then 0
    else CountSuccesses(outcomes[..|outcomes| - 1]) + (if outcomes[|outcomes| - 1] == Fulfilled(true) then 1 else 0)
  }

  /** The count is zero exactly when no promise fulfilled with `true`. */
  lemma {:induction false} NoSuccesses(outcomes: seq<Outcome>)
    ensures CountSuccesses(outcomes) == 0 <==> forall j :: 0 <= j < |outcomes| ==> outcomes[j] != Fulfilled(true)
    decreases |outcomes|
  {
    if outcomes != [] {
      var front := outcomes[..|outcomes| - 1];
      NoSuccesses(front);
      assert forall j :: 0 <= j < |front| ==> front[j] == outcomes[j];
    }
  }


  /** One worker: from a world and a path, the world it leaves and its outcome. */
  type Job = (World, Path) -> (World, Outcome)

  /** `compressFile` as a job: the worker of `p` gets the service's answer `service(p)`. */
  function CompressJob(extensions: seq<string>, md5: Bytes -> Digest, service: Path -> Reply, now: string): Job
  {
    (w: World, p: Path) => Step(w, p, extensions, md5, service(p), now)
  }

  /**
   * The jobs of `files[lo..hi]` run one after another from world `w`: the
   * world they leave and every job's outcome, in list order.
   */
  function Run(w: World, files: seq<Path>, lo: nat, hi: nat, job: Job): (r: (World, seq<Outcome>))
    requires lo <= hi <= |files|
    ensures |r.1| == hi - lo
    decreases hi
  {
    if hi == lo then (w, [])
    else
      var before := Run(w, files, lo, hi - 1, job);
      var last := job(before.0, files[hi - 1]);
      (last.0, before.1 + [last.1])
  }

  /** The outcomes of the jobs up to `m` are the first outcomes of any longer run. */
  lemma {:induction false} RunPrefix(w: World, files: seq<Path>, lo: nat, m: nat, hi: nat, job: Job)
    requires lo <= m <= hi <= |files|
    ensures Run(w, files, lo, hi, job).1[..m - lo] == Run(w, files, lo, m, job).1
    decreases hi
  {
    if m < hi {
      RunPrefix(w, files, lo, m, hi - 1, job);
      var before := Run(w, files, lo, hi - 1, job);
      var last := job(before.0, files[hi - 1]);
      assert (before.1 + [last.1])[..m - lo] == before.1[..m - lo];
    }
  }

  /**
   * The outcome reported for `files[j]` is its job's, run on the world the
   * jobs before it left behind.
   */
  lemma {:induction false} RunOutcomeAt(w: World, files: seq<Path>, lo: nat, hi: nat, j: nat, job: Job)
    requires lo <= j < hi <= |files|
    ensures Run(w, files, lo, hi, job).1[j - lo] == job(Run(w, files, lo, j, job).0, files[j]).1
    decreases hi
  {
    var before := Run(w, files, lo, hi - 1, job);
    var last := job(before.0, files[hi - 1]);
    if j < hi - 1 {
      RunOutcomeAt(w, files, lo, hi - 1, j, job);
      assert (before.1 + [last.1])[j - lo] == before.1[j - lo];
    }
  }

  /**
   * Running the jobs of `files[lo..hi]` is running those of `files[lo..mid]`
   * and then, from the world they leave, those of `files[mid..hi]`.
   */
  lemma {:induction false} RunSplit(w: World, files: seq<Path>, lo: nat, mid: nat, hi: nat, job: Job)
    requires lo <= mid <= hi <= |files|
    ensures var first := Run(w, files, lo, mid, job);
            var rest := Run(first.0, files, mid, hi, job);
            Run(w, files, lo, hi, job) == (rest.0, first.1 + rest.1)
    decreases hi
  {
    var first := Run(w, files, lo, mid, job);
    if hi > mid {
      RunSplit(w, files, lo, mid, hi - 1, job);
      var before := Run(first.0, files, mid, hi - 1, job);
      var last := job(before.0, files[hi - 1]);
      assert (first.1 + before.1) + [last.1] == first.1 + (before.1 + [last.1]);
    } else {
      assert first.1 + [] == first.1;
    }
  }

  /**
   * Only the listed paths are touched: a path none of the workers of
   * `files[lo..hi]` was given keeps its file and its ledger entry.
   */
  lemma {:induction false} RunKeepsUnlisted(w: World, files: seq<Path>, lo: nat, hi: nat, k: Path, extensions: seq<string>,
                                            md5: Bytes -> Digest, service: Path -> Reply, now: string)
    requires lo <= hi <= |files| && forall t :: lo <= t < hi ==> files[t] != k
    ensures var w' := Run(w, files, lo, hi, CompressJob(extensions, md5, service, now)).0;
            At(w'.files, k) == At(w.files, k) && At(w'.records, k) == At(w.records, k)
    decreases hi
  {
    if hi > lo {
      RunKeepsUnlisted(w, files, lo, hi - 1, k, extensions, md5, service, now);
      var w1 := Run(w, files, lo, hi - 1, CompressJob(extensions, md5, service, now)).0;
      StepKeepsOtherKeys(w1, files[hi - 1], k, extensions, md5, service(files[hi - 1]), now);
    }
  }

  /**
   * What a worker does to the upload log: it appends its own path or
   * nothing, and it reports success only after appending.
   */
  ghost predicate UploadsOwnPath(job: Job)
  {
    forall w: World, p: Path ::
      || job(w, p).0.uploads == w.uploads + [p]
      || (job(w, p).0.uploads == w.uploads && job(w, p).1 != Fulfilled(true))
  }

  /** `compressFile` is such a worker. */
  lemma CompressJobUploadsOwnPath(extensions: seq<string>, md5: Bytes -> Digest, service: Path -> Reply, now: string)
    ensures UploadsOwnPath(CompressJob(extensions, md5, service, now))
  {
    var job := CompressJob(extensions, md5, service, now);
    forall w: World, p: Path
      ensures || job(w, p).0.uploads == w.uploads + [p]
              || (job(w, p).0.uploads == w.uploads && job(w, p).1 != Fulfilled(true))
    {
      assert job(w, p) == Step(w, p, extensions, md5, service(p), now);
    }
  }

  /** The run only appends uploads, and every upload is of a path some worker of `files[lo..hi]` was given. */
  lemma {:induction false} RunUploadsListed(w: World, files: seq<Path>, lo: nat, hi: nat, job: Job)
    requires lo <= hi <= |files| && UploadsOwnPath(job)
    ensures var w' := Run(w, files, lo, hi, job).0;
            && |w.uploads| <= |w'.uploads| && w'.uploads[..|w.uploads|] == w.uploads
            && (forall u :: u in w'.uploads[|w.uploads|..] ==> u in files[lo..hi])
    decreases hi
  {
    if hi > lo {
      var p := files[hi - 1];
      RunUploadsListed(w, files, lo, hi - 1, job);
      var w1 := Run(w, files, lo, hi - 1, job).0;
      var w2 := job(w1, p).0;
      assert files[lo..hi] == files[lo..hi - 1] + [p];
      UploadsExtend(w.uploads, w1.uploads, w2.uploads, files[lo..hi - 1], p);
    }
  }

  /** Appending `p`, or nothing, to a log that extends `u0` with listed paths extends it with paths listed or `p`. */
  lemma UploadsExtend(u0: seq<Path>, u1: seq<Path>, u2: seq<Path>, listed: seq<Path>, p: Path)
    requires |u0| <= |u1| && u1[..|u0|] == u0 && (forall u :: u in u1[|u0|..] ==> u in listed)
    requires u2 == u1 || u2 == u1 + [p]
    ensures |u0| <= |u2| && u2[..|u0|] == u0 && (forall u :: u in u2[|u0|..] ==> u in listed + [p])
  {
    if u2 != u1 {
      assert u2[..|u0|] == u1[..|u0|];
      assert u2[|u0|..] == u1[|u0|..] + [p];
    }
  }

  /**
   * Every success is a completed upload, so a run reports no more
   * successes than it made uploads.
   */
  lemma {:induction false} SuccessesAreUploads(w: World, files: seq<Path>, lo: nat, hi: nat, job: Job)
    requires lo <= hi <= |files| && UploadsOwnPath(job)
    ensures |w.uploads| + Successes(w, files, lo, hi, job) <= |Run(w, files, lo, hi, job).0.uploads|
    decreases hi
  {
    if hi > lo {
      SuccessesAreUploads(w, files, lo, hi - 1, job);
    }
  }

  /** `saveRecords(records)`: the whole ledger overwrites the record file. */
  method SaveRecords(records: Records, host: Host)
    modifies host
    ensures host.saveLog == old(host.saveLog) + [records.entries]
    ensures host.files == old(host.files) && host.uploads == old(host.uploads)
  {
    host.saveLog := host.saveLog + [records.entries];
  }

  /**
   * `Promise.allSettled(batch.map(compressFile))` for the slice
   * `files.slice(lo, hi)`, the workers run one after another in slice order
   * (see `DisjointWorkersCommute`): the new state and the outcomes are
   * those of `Run` over the slice.
   */
  method CompressBatch(files: seq<Path>, lo: nat, hi: nat, extensions: seq<string>, records: Records, host: Host,
                       md5: Bytes -> Digest, service: Path -> Reply, now: string)
    returns (results: seq<Outcome>)
    requires lo <= hi <= |files|
    modifies records, host
    ensures var r := Run(World(old(host.files), old(records.entries), old(host.uploads)),
                         files, lo, hi, CompressJob(extensions, md5, service, now));
            World(host.files, records.entries, host.uploads) == r.0 && results == r.1
    ensures host.saveLog == old(host.saveLog)
  {
    ghost var w0 := World(host.files, records.entries, host.uploads);
    ghost var job := CompressJob(extensions, md5, service, now);
    results := [];
    var t := lo;
    while t < hi
      invariant lo <= t <= hi
      invariant (World(host.files, records.entries, host.uploads), results) == Run(w0, files, lo, t, job)
      invariant host.saveLog == old(host.saveLog)
    {
      var outcome := CompressFile(files[t], extensions, records, host, md5, service(files[t]), now);
      results := results + [outcome];
      t := t + 1;
    }
  }

  /**
   * The number of jobs of `files[lo..hi]` whose outcome is `true`, job by
   * job along the run.
   */
  function Successes(w: World, files: seq<Path>, lo: nat, hi: nat, job: Job): (n: nat)
    requires lo <= hi <= |files|
    ensures n <= hi - lo
    decreases hi
  {
    if hi == lo then 0
    else
      var last := job(Run(w, files, lo, hi - 1, job).0, files[hi - 1]);
      Successes(w, files, lo, hi - 1, job) + (if last.1 == Fulfilled(true) then 1 else 0)
  }

  /** Counting the fulfilled `true`s among a run's outcomes counts its successful jobs. */
  lemma {:induction false} SuccessesCounted(w: World, files: seq<Path>, lo: nat, hi: nat, job: Job)
    requires lo <= hi <= |files|
    ensures CountSuccesses(Run(w, files, lo, hi, job).1) == Successes(w, files, lo, hi, job)
    decreases hi
  {
    if hi > lo {
      SuccessesCounted(w, files, lo, hi - 1, job);
      var before := Run(w, files, lo, hi - 1, job);
      var last := job(before.0, files[hi - 1]);
      assert (before.1 + [last.1])[..hi - lo - 1] == before.1;
    }
  }

  /**
   * One pass of the batch loop's body: the slice's workers run, their
   * successes are counted, and the whole ledger is saved.
   */
  method CompressSlice(files: seq<Path>, lo: nat, hi: nat, extensions: seq<string>, records: Records, host: Host,
                       md5: Bytes -> Digest, service: Path -> Reply, now: string)
    returns (count: nat)
    requires lo <= hi <= |files|
    modifies records, host
    ensures var w := World(old(host.files), old(records.entries), old(host.uploads));
            var job := CompressJob(extensions, md5, service, now);
            World(host.files, records.entries, host.uploads) == Run(w, files, lo, hi, job).0
            && count == Successes(w, files, lo, hi, job)
    ensures host.saveLog == old(host.saveLog) + [records.entries]
  {
    ghost var w := World(host.files, records.entries, host.uploads);
    var results := CompressBatch(files, lo, hi, extensions, records, host, md5, service, now);
    count := CountSuccesses(results);
    SuccessesCounted(w, files, lo, hi, CompressJob(extensions, md5, service, now));
    SaveRecords(records, host);
  }

  /**
   * The record file's history after the first `b` slices from world `w`:
   * the saves `log` held before, then one save per slice, each the ledger
   * once every path up to the end of its slice has been handled.
   */
  ghost function SavedLog(log: seq<map<Path, Record>>, w: World, files: seq<Path>, k: nat, b: nat, job: Job)
    : (saved: seq<map<Path, Record>>)
    ensures |saved| == |log| + b
  {
    if b == 0 then log
    else SavedLog(log, w, files, k, b - 1, job) + [Run(w, files, 0, Min(BatchStart(b - 1, k) + k, |files|), job).0.records]
  }

  /** The earlier saves are kept, and the `j`-th new save holds the ledger after the first `j + 1` slices. */
  lemma {:induction false} SavedLogAt(log: seq<map<Path, Record>>, w: World, files: seq<Path>, k: nat, b: nat, j: nat, job: Job)
    requires j < b
    ensures SavedLog(log, w, files, k, b, job)[..|log|] == log
    ensures SavedLog(log, w, files, k, b, job)[|log| + j] == Run(w, files, 0, Min(BatchStart(j, k) + k, |files|), job).0.records
    decreases b
  {
    var before := SavedLog(log, w, files, k, b - 1, job);
    var last := Run(w, files, 0, Min(BatchStart(b - 1, k) + k, |files|), job).0.records;
    if j < b - 1 {
      SavedLogAt(log, w, files, k, b - 1, j, job);
      assert (before + [last])[|log| + j] == before[|log| + j];
    } else if b - 1 > 0 {
      SavedLogAt(log, w, files, k, b - 1, 0, job);
    }
    assert (before + [last])[..|log|] == before[..|log|];
  }

  /** The paths of the first `j + 1` slices from the start are the prefix of the list that ends with slice `j`. */
  lemma SlicesDone<T>(files: seq<T>, k: nat, j: nat)
    requires k >= 1 && j < |SlicesFrom(files, k, 0)|
    ensures var done := Concat(SlicesFrom(files, k, 0)[..j + 1]);
            done <= files && |done| == Min(BatchStart(j, k) + k, |files|)
  {
    SlicesPrefix(files, k, 0, j);
    var done := Concat(SlicesFrom(files, k, 0)[..j + 1]);
    assert done == files[..Min(BatchStart(j, k) + k, |files|)];
  }

  /**
   * `SavedLogAt` in terms of the slices the loop takes: the `j`-th new save
   * is the ledger once the paths of the first `j + 1` slices of
   * `SlicesFrom(files, k, 0)`, a prefix of the list, have been handled.
   */
  lemma SavedLogBySlices(log: seq<map<Path, Record>>, w: World, files: seq<Path>, k: nat, j: nat, job: Job)
    requires k >= 1 && j < BatchCount(|files|, k)
    ensures |SlicesFrom(files, k, 0)| == BatchCount(|files|, k)
    ensures var done := Concat(SlicesFrom(files, k, 0)[..j + 1]);
            && done <= files
            && SavedLog(log, w, files, k, BatchCount(|files|, k), job)[|log| + j] == Run(w, files, 0, |done|, job).0.records
  {
    SliceCount(files, k, 0);
    SlicesDone(files, k, j);
    SavedLogAt(log, w, files, k, BatchCount(|files|, k), j, job);
  }

  /** The save of a slice that reaches the end of the list holds the ledger of the whole run. */
  lemma SavedLogEnd(log: seq<map<Path, Record>>, w: World, files: seq<Path>, k: nat, b: nat, job: Job)
    requires b > 0 && BatchStart(b - 1, k) + k >= |files|
    ensures SavedLog(log, w, files, k, b, job)[|log| + b - 1] == Run(w, files, 0, |files|, job).0.records
  {
    SavedLogAt(log, w, files, k, b, b - 1, job);
  }

  /** The last save of a run over a non-empty list holds the ledger the whole run leaves. */
  lemma SavedLogLast(log: seq<map<Path, Record>>, w: World, files: seq<Path>, k: nat, job: Job)
    requires k >= 1 && files != []
    ensures var saved := SavedLog(log, w, files, k, BatchCount(|files|, k), job);
            |saved| > |log| && saved[|saved| - 1] == Run(w, files, 0, |files|, job).0.records
  {
    var b := BatchCount(|files|, k);
    BatchStartShift(b - 1, k);
    SavedLogEnd(log, w, files, k, b, job);
  }

  /**
   * The batch loop from start `i` on, from world `w`, with `count`
   * successes counted and the saves `log` written so far: the world it
   * leaves, the final count and the final list of saves.
   */
  function BatchLoop(w: World, count: nat, log: seq<map<Path, Record>>, files: seq<Path>, k: nat, i: nat, job: Job)
    : (r: (World, nat, seq<map<Path, Record>>))
    requires k >= 1
    ensures count <= r.1 && |log| <= |r.2| && r.2[..|log|] == log
    decreases |files| - i
  {
    if i >= |files| then (w, count, log)
    else
      var end := Min(i + k, |files|);
      var slice := Run(w, files, i, end, job);
      BatchLoop(slice.0, count + Successes(w, files, i, end, job), log + [slice.0.records], files, k, i + k, job)
  }

  /** One pass of the batch loop: the slice from `i` runs, its successes are added and its ledger saved. */
  lemma BatchLoopNext(w: World, count: nat, log: seq<map<Path, Record>>, files: seq<Path>, k: nat, i: nat, job: Job,
                      w': World, count': nat, log': seq<map<Path, Record>>, i': nat)
    requires k >= 1 && i < |files| && i' == i + k
    requires w' == Run(w, files, i, Min(i + k, |files|), job).0
    requires count' == count + Successes(w, files, i, Min(i + k, |files|), job)
    requires log' == log + [w'.records]
    ensures BatchLoop(w, count, log, files, k, i, job) == BatchLoop(w', count', log', files, k, i', job)
  {
  }

  /** Successes add up over consecutive parts of the list. */
  lemma {:induction false} SuccessesSplit(w: World, files: seq<Path>, lo: nat, mid: nat, hi: nat, job: Job)
    requires lo <= mid <= hi <= |files|
    ensures Successes(w, files, lo, hi, job)
         == Successes(w, files, lo, mid, job) + Successes(Run(w, files, lo, mid, job).0, files, mid, hi, job)
    decreases hi
  {
    if hi > mid {
      SuccessesSplit(w, files, lo, mid, hi - 1, job);
      RunSplit(w, files, lo, mid, hi - 1, job);
    }
  }

  /** After the slice `files[i..end]`, the world and the count are those of the first `end` jobs. */
  lemma BatchDone(w0: World, files: seq<Path>, i: nat, end: nat, job: Job)
    requires i <= end <= |files|
    ensures var mid := Run(w0, files, 0, i, job).0;
            && Run(w0, files, 0, end, job).0 == Run(mid, files, i, end, job).0
            && Successes(w0, files, 0, end, job) == Successes(w0, files, 0, i, job) + Successes(mid, files, i, end, job)
  {
    RunSplit(w0, files, 0, i, end, job);
    SuccessesSplit(w0, files, 0, i, end, job);
  }

  /**
   * From slice `b` on, with the first `b` slices done, the batch loop ends
   * in the world and the count of the whole run in list order, having
   * saved what `SavedLog` lists.
   */
  lemma {:induction false} BatchLoopFrom(w0: World, log0: seq<map<Path, Record>>, files: seq<Path>, k: nat, b: nat, job: Job)
    requires k >= 1 && (b == 0 || BatchStart(b - 1, k) < |files|)
    ensures var m := Min(BatchStart(b, k), |files|);
            BatchLoop(Run(w0, files, 0, m, job).0, Successes(w0, files, 0, m, job), SavedLog(log0, w0, files, k, b, job),
                      files, k, BatchStart(b, k), job)
            == (Run(w0, files, 0, |files|, job).0, Successes(w0, files, 0, |files|, job),
                SavedLog(log0, w0, files, k, BatchCount(|files|, k), job))
    decreases if BatchStart(b, k) < |files| then |files| - BatchStart(b, k) else 0
  {
    BatchStartShift(b, k);
    if BatchStart(b, k) < |files| {
      var end := Min(BatchStart(b, k) + k, |files|);
      BatchDone(w0, files, BatchStart(b, k), end, job);
      BatchLoopNext(Run(w0, files, 0, BatchStart(b, k), job).0, Successes(w0, files, 0, BatchStart(b, k), job),
                    SavedLog(log0, w0, files, k, b, job), files, k, BatchStart(b, k), job,
                    Run(w0, files, 0, end, job).0, Successes(w0, files, 0, end, job),
                    SavedLog(log0, w0, files, k, b + 1, job), BatchStart(b + 1, k));
      BatchLoopFrom(w0, log0, files, k, b + 1, job);
    } else {
      if b > 0 {
        BatchStartShift(b - 1, k);
      }
      BatchCountExact(|files|, k, b);
    }
  }

  /** The whole batch loop, from the first slice: `BatchLoopFrom` with no slice done. */
  lemma BatchLoopMeaning(w0: World, log0: seq<map<Path, Record>>, files: seq<Path>, k: nat, job: Job)
    requires k >= 1
    ensures BatchLoop(w0, 0, log0, files, k, 0, job)
         == (Run(w0, files, 0, |files|, job).0, Successes(w0, files, 0, |files|, job),
             SavedLog(log0, w0, files, k, BatchCount(|files|, k), job))
  {
    BatchLoopFrom(w0, log0, files, k, 0, job);
  }

  /**
   * `compressFilesInBatches`: the batch loop. A worker that rejects is
   * counted like one that returns false. The disk and the ledger end as
   * the whole run in list order leaves them, the count is the number of
   * `true` results, and the ledger is saved once per slice, the `j`-th
   * save holding the ledger after the first `j + 1` slices (`SavedLogAt`).
   */
  method CompressFilesInBatches(files: seq<Path>, concurrentLimit: int, extensions: seq<string>,
                                records: Records, host: Host,
                                md5: Bytes -> Digest, service: Path -> Reply, now: string)
    returns (compressedCount: nat)
    requires concurrentLimit >= 1
    modifies records, host
    ensures var w0 := World(old(host.files), old(records.entries), old(host.uploads));
            var job := CompressJob(extensions, md5, service, now);
            && World(host.files, records.entries, host.uploads) == Run(w0, files, 0, |files|, job).0
            && compressedCount == CountSuccesses(Run(w0, files, 0, |files|, job).1)
            && host.saveLog == SavedLog(old(host.saveLog), w0, files, concurrentLimit, BatchCount(|files|, concurrentLimit), job)
  {
    var batchSize := concurrentLimit;
    ghost var w0 := World(host.files, records.entries, host.uploads);
    ghost var job := CompressJob(extensions, md5, service, now);
    ghost var final := BatchLoop(w0, 0, host.saveLog, files, batchSize, 0, job);
    compressedCount := 0;
    var i: nat := 0;
    while i < |files|
      invariant BatchLoop(World(host.files, records.entries, host.uploads), compressedCount, host.saveLog,
                          files, batchSize, i, job) == final
      decreases |files| - i
    {
      var end := Min(i + batchSize, |files|);
      ghost var before, counted, saved, start := World(host.files, records.entries, host.uploads), compressedCount, host.saveLog, i;
      var count := CompressSlice(files, i, end, extensions, records, host, md5, service, now);
      compressedCount := compressedCount + count;
      i := i + batchSize;
      BatchLoopNext(before, counted, saved, files, batchSize, start, job,
                    World(host.files, records.entries, host.uploads), compressedCount, host.saveLog, i);
    }
    BatchLoopMeaning(w0, old(host.saveLog), files, batchSize, job);
    SuccessesCounted(w0, files, 0, |files|, job);
  }
}
