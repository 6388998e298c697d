/**
 * `compressFile`: the per-file decision (extension filter, dedup check
 * against the ledger, upload to the compression service, ledger update and
 * validity verdict). `Step` is its specification over an explicit world;
 * the method `CompressFile` runs it on the mutable ledger and host.
 */
module Worker {
  import opened Types
  import opened PathNames

  /**
   * The value `((originalSize - compressedSize) / originalSize) * 100`
   * takes in JavaScript: a finite percentage `100 * saved / original` when
   * the original is not empty, `-Infinity` for `(0 - c) / 0` with `c > 0`,
   * and `NaN` for `0 / 0`.
   */
  datatype Ratio = Finite(saved: int, original: nat) | NegInfinity | NotANumber

  function RatioOf(originalSize: nat, compressedSize: nat): (r: Ratio)
    ensures r.Finite? <==> originalSize > 0
    ensures r.Finite? ==> r.original == originalSize && r.saved == originalSize - compressedSize
    ensures r.NotANumber? <==> originalSize == 0 && compressedSize == 0
    ensures r.Finite? ==>
      (100 * r.saved) as real / r.original as real
      == ((originalSize as real - compressedSize as real) / originalSize as real) * 100.0
  {
    if originalSize > 0 then Finite(originalSize - compressedSize, originalSize)
    else if compressedSize > 0 then NegInfinity
    else NotANumber
  }

  /** `ratio > percent`, with the IEEE comparisons of -Infinity and NaN. */
  predicate Exceeds(r: Ratio, percent: int)
  {
    match r
    case Finite(saved, original) => 100 * saved > percent * original
    case NegInfinity => false
    case NotANumber => false
  }

  /** `ratio < percent`, with the IEEE comparisons of -Infinity and NaN. */
  predicate Below(r: Ratio, percent: int)
  {
    match r
    case Finite(saved, original) => 100 * saved < percent * original
    case NegInfinity => true
    case NotANumber => false
  }

  /**
   * For a non-empty original, `Exceeds` and `Below` are the comparisons of
   * the percentage `((orig - comp) / orig) * 100` with `percent`, computed
   * exactly.
   */
  lemma RatioComparesAsPercentage(originalSize: nat, compressedSize: nat, percent: int)
    requires originalSize > 0
    ensures var ratio := ((originalSize as real - compressedSize as real) / originalSize as real) * 100.0;
            && (Exceeds(RatioOf(originalSize, compressedSize), percent) <==> ratio > percent as real)
            && (Below(RatioOf(originalSize, compressedSize), percent) <==> ratio < percent as real)
  {
    var o := originalSize as real;
    var saved := (originalSize - compressedSize) as real;
    var ratio := (saved / o) * 100.0;
    assert ratio * o == 100.0 * saved;
    assert ratio > percent as real <==> ratio * o > percent as real * o;
    assert ratio < percent as real <==> ratio * o < percent as real * o;
  }

  const SmallFileLimit: nat := 5 * 1024

  /**
   * `compressionRatio > 10 || (compressionRatio < 10 && compressedSize > 5 * 1024)`.
   * Saving exactly ten percent is never a success.
   */
  function IsValidCompression(originalSize: nat, compressedSize: nat): (valid: bool)
    ensures originalSize > 0 ==>
      (valid <==> 10 * (originalSize - compressedSize) > originalSize
                  || (10 * (originalSize - compressedSize) < originalSize && compressedSize > 5120))
    ensures originalSize > 0 && 10 * (originalSize - compressedSize) == originalSize ==> !valid
    ensures originalSize == 0 ==> (valid <==> compressedSize > 5120)
  {
    var ratio := RatioOf(originalSize, compressedSize);
    Exceeds(ratio, 10) || (Below(ratio, 10) && compressedSize > SmallFileLimit)
  }

  /** One entry of the ledger. */
  datatype Record = Record(md5: Digest, compressedSize: nat, compressionRatio: Ratio, timestamp: string)

  /** What the compression service does with one upload: the bytes written back over the file, or a failure. */
  datatype Reply = Compressed(bytes: Bytes) | Failed

  /** How the promise of one `compressFile` call settles. */
  datatype Outcome = Fulfilled(value: bool) | Rejected

  /**
   * Everything one worker reads or writes: the files on disk, the
   * in-memory ledger, and the paths uploaded to the service so far.
   */
  datatype World = World(files: map<Path, Bytes>, records: map<Path, Record>, uploads: seq<Path>)

  /** The ledger already holds the digest of the file's current content. */
  predicate Unchanged(w: World, p: Path, md5: Bytes -> Digest)
    requires p in w.files
  {
    p in w.records && w.records[p].md5 == md5(w.files[p])
  }

  /** The worker gets past the filter, the read and the dedup check, and uploads `p`. */
  predicate Uploads(w: World, p: Path, extensions: seq<string>, md5: Bytes -> Digest)
  {
    PathAccepted(p, extensions) && p in w.files && !Unchanged(w, p, md5)
  }

  /**
   * `compressFile(filePath, config, records)`, one call, with the service's
   * answer `reply` and the clock reading `now` as inputs. The read that
   * computes the first digest stands outside the `try`, so a file that
   * cannot be read rejects the promise instead of returning false.
   */
  function Step(w: World, p: Path, extensions: seq<string>, md5: Bytes -> Digest, reply: Reply, now: string): (r: (World, Outcome))
    // The extension filter: nothing happens.
    ensures !PathAccepted(p, extensions) ==> r == (w, Fulfilled(false))
    // A file that cannot be read: the promise rejects, nothing happens.
    ensures r.1 == Rejected <==> PathAccepted(p, extensions) && p !in w.files
    ensures r.1 == Rejected ==> r.0 == w
    // The dedup check: unchanged content is skipped without an upload.
    ensures PathAccepted(p, extensions) && p in w.files && Unchanged(w, p, md5) ==> r == (w, Fulfilled(false))
    // The service is called exactly when all three checks pass.
    ensures r.0.uploads == if Uploads(w, p, extensions, md5) then w.uploads + [p] else w.uploads
    // Only the key `p` of the files and of the ledger can change.
    ensures r.0.files - {p} == w.files - {p}
    ensures r.0.records - {p} == w.records - {p}
    // A failed upload changes neither the file nor the ledger.
    ensures reply.Failed? ==> r.0.files == w.files && r.0.records == w.records && r.1 != Fulfilled(true)
    // A completed upload: the file holds the new bytes, the ledger describes them, the verdict is on the two sizes.
    ensures Uploads(w, p, extensions, md5) && reply.Compressed? ==>
      && r.0.files == w.files[p := reply.bytes]
      && p in r.0.records
      && r.0.records[p].md5 == md5(r.0.files[p])
      && r.0.records[p].compressedSize == |r.0.files[p]|
      && r.0.records[p].compressionRatio == RatioOf(|w.files[p]|, |reply.bytes|)
      && r.1 == Fulfilled(IsValidCompression(|w.files[p]|, |reply.bytes|))
    // A success is always a completed upload that passed the verdict.
    ensures r.1 == Fulfilled(true) ==>
      Uploads(w, p, extensions, md5) && reply.Compressed? && IsValidCompression(|w.files[p]|, |reply.bytes|)
  {
    if !PathAccepted(p, extensions) then (w, Fulfilled(false))
    else if p !in w.files then (w, Rejected)
    else if Unchanged(w, p, md5) then (w, Fulfilled(false))
    else
      var uploads := w.uploads + [p];
      match reply
      case Failed => (w.(uploads := uploads), Fulfilled(false))
      case Compressed(out) =>
        var originalSize := |w.files[p]|;
        var compressedSize := |out|;
        var entry := Record(md5(out), compressedSize, RatioOf(originalSize, compressedSize), now);
        (World(w.files[p := out], w.records[p := entry], uploads),
         Fulfilled(IsValidCompression(originalSize, compressedSize)))
  }

  /** Running the worker again right after a completed upload is a dedup skip, whatever the service would answer. */
  lemma RerunIsSkipped(w: World, p: Path, extensions: seq<string>, md5: Bytes -> Digest, bytes: Bytes, reply: Reply, now: string, later: string)
    requires Uploads(w, p, extensions, md5)
    ensures var w1 := Step(w, p, extensions, md5, Compressed(bytes), now).0;
      Step(w1, p, extensions, md5, reply, later) == (w1, Fulfilled(false))
  {
  }

  /** The entry of `m` at `k`, if any. */
  function At<K, V>(m: map<K, V>, k: K): Option<V>
  {
    if k in m then Some(m[k]) else None
  }

  /** Two maps that agree at every key are equal. */
  lemma MapsEqualByKey<K, V>(m1: map<K, V>, m2: map<K, V>)
    requires forall k :: At(m1, k) == At(m2, k)
    ensures m1 == m2
  {
    forall k | k in m1 ensures k in m2 && m1[k] == m2[k] {
      assert At(m1, k) == At(m2, k);
    }
    forall k | k in m2 ensures k in m1 {
      assert At(m1, k) == At(m2, k);
    }
  }

  /**
   * A worker reads only its own key: from two worlds that agree on the file
   * and the ledger entry at `p`, it reaches the same outcome, writes the
   * same values at `p`, and uploads in both or in neither.
   */
  lemma StepIsLocal(w1: World, w2: World, p: Path, extensions: seq<string>, md5: Bytes -> Digest, reply: Reply, now: string)
    requires At(w1.files, p) == At(w2.files, p) && At(w1.records, p) == At(w2.records, p)
    ensures var (v1, o1) := Step(w1, p, extensions, md5, reply, now);
            var (v2, o2) := Step(w2, p, extensions, md5, reply, now);
            && o1 == o2
            && At(v1.files, p) == At(v2.files, p)
            && At(v1.records, p) == At(v2.records, p)
            && (Uploads(w1, p, extensions, md5) <==> Uploads(w2, p, extensions, md5))
  {
    assert p in w1.files <==> p in w2.files by {
      assert At(w1.files, p) == At(w2.files, p);
    }
    assert p in w1.records <==> p in w2.records by {
      assert At(w1.records, p) == At(w2.records, p);
    }
  }

  /** A worker leaves every other key where it was. */
  lemma StepKeepsOtherKeys(w: World, p: Path, k: Path, extensions: seq<string>, md5: Bytes -> Digest, reply: Reply, now: string)
    requires k != p
    ensures var v := Step(w, p, extensions, md5, reply, now).0;
            At(v.files, k) == At(w.files, k) && At(v.records, k) == At(w.records, k)
  {
    var v := Step(w, p, extensions, md5, reply, now).0;
    assert k in v.files <==> k in (v.files - {p});
    assert k in w.files <==> k in (w.files - {p});
    assert k in v.records <==> k in (v.records - {p});
    assert k in w.records <==> k in (w.records - {p});
    if k in v.files { assert v.files[k] == (v.files - {p})[k]; assert (w.files - {p})[k] == w.files[k]; }
    if k in v.records { assert v.records[k] == (v.records - {p})[k]; assert (w.records - {p})[k] == w.records[k]; }
  }

  /**
   * Two workers on different paths commute: the files, the ledger and both
   * outcomes are the same in either order, and the same uploads happen.
   * This is why running the workers of one batch one after another stands
   * for `Promise.allSettled` over them.
   */
  lemma {:induction false} DisjointWorkersCommute(w: World, p: Path, q: Path, extensions: seq<string>, md5: Bytes -> Digest,
                                                  rp: Reply, rq: Reply, now: string)
    requires p != q
    ensures var (wp, op) := Step(w, p, extensions, md5, rp, now);
            var (wpq, oq) := Step(wp, q, extensions, md5, rq, now);
            var (wq, oq') := Step(w, q, extensions, md5, rq, now);
            var (wqp, op') := Step(wq, p, extensions, md5, rp, now);
            && wpq.files == wqp.files && wpq.records == wqp.records
            && op == op' && oq == oq'
            && multiset(wpq.uploads) == multiset(wqp.uploads)
  {
    var (wp, op) := Step(w, p, extensions, md5, rp, now);
    var (wpq, oq) := Step(wp, q, extensions, md5, rq, now);
    var (wq, oq') := Step(w, q, extensions, md5, rq, now);
    var (wqp, op') := Step(wq, p, extensions, md5, rp, now);
    StepKeepsOtherKeys(w, p, q, extensions, md5, rp, now);
    StepKeepsOtherKeys(w, q, p, extensions, md5, rq, now);
    StepIsLocal(wp, w, q, extensions, md5, rq, now);
    StepIsLocal(wq, w, p, extensions, md5, rp, now);
    forall k ensures At(wpq.files, k) == At(wqp.files, k) && At(wpq.records, k) == At(wqp.records, k) {
      if k == p {
        StepKeepsOtherKeys(wp, q, p, extensions, md5, rq, now);
      } else if k == q {
        StepKeepsOtherKeys(wq, p, q, extensions, md5, rp, now);
      } else {
        StepKeepsOtherKeys(w, p, k, extensions, md5, rp, now);
        StepKeepsOtherKeys(wp, q, k, extensions, md5, rq, now);
        StepKeepsOtherKeys(w, q, k, extensions, md5, rq, now);
        StepKeepsOtherKeys(wq, p, k, extensions, md5, rp, now);
      }
    }
    MapsEqualByKey(wpq.files, wqp.files);
    MapsEqualByKey(wpq.records, wqp.records);
  }

  /** The `records` object the workers share and update in place. */
  class Records {
    var entries: map<Path, Record>

    constructor (initial: map<Path, Record>)
      ensures entries == initial
    {
      entries := initial;
    }
  }

  /**
   * What lies outside the process: the files on disk, the uploads made to
   * the compression service, and every ledger written to the record file.
   */
  class Host {
    var files: map<Path, Bytes>
    var uploads: seq<Path>
    var saveLog: seq<map<Path, Record>>

    constructor (files: map<Path, Bytes>)
      ensures this.files == files && uploads == [] && saveLog == []
    {
      this.files := files;
      uploads := [];
      saveLog := [];
    }
  }

  /** The `compressFile` function, updating `records` and the disk in place. */
  method CompressFile(p: Path, extensions: seq<string>, records: Records, host: Host,
                      md5: Bytes -> Digest, reply: Reply, now: string) returns (outcome: Outcome)
    modifies records, host
    ensures (World(host.files, records.entries, host.uploads), outcome)
         == Step(World(old(host.files), old(records.entries), old(host.uploads)), p, extensions, md5, reply, now)
    ensures host.saveLog == old(host.saveLog)
  {
    var ext := Lower(Extname(p));
    if ext !in extensions {
      return Fulfilled(false);
    }
    if p !in host.files {
      return Rejected;
    }
    var fileMD5 := md5(host.files[p]);
    if p in records.entries && records.entries[p].md5 == fileMD5 {
      return Fulfilled(false);
    }
    host.uploads := host.uploads + [p];
    var originalSize := |host.files[p]|;
    match reply {
      case Failed =>
        return Fulfilled(false);
      case Compressed(out) =>
        host.files := host.files[p := out];
    }
    var compressedMD5 := md5(host.files[p]);
    var compressedSize := |host.files[p]|;
    var compressionRatio := RatioOf(originalSize, compressedSize);
    records.entries := records.entries[p := Record(compressedMD5, compressedSize, compressionRatio, now)];
    var isValidCompression := Exceeds(compressionRatio, 10)
                              || (Below(compressionRatio, 10) && compressedSize > SmallFileLimit);
    return Fulfilled(isValidCompression);
  }
}
