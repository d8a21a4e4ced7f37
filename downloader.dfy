/**
 * The sequential downloader `ImageDownloader`: every image is fetched in
 * turn, each with a bounded number of attempts, and the counters in `stats`
 * record what happened.
 *
 * The network and the disk are the environment. What a request attempt
 * yields is given by a function from the attempt number to an `Attempt`;
 * the files under the output directory are a map from path to size; the
 * pauses and requests the downloader makes are recorded in an event log.
 */
module Downloader {
  import opened Options
  import opened Filenames
  import opened Jobs

  /** What one pass through the body of the retry loop meets. */
  datatype Attempt =
    | Fetched(size: nat)                    // the response was written out in full; the file has `size` bytes
    | RequestFailed(partial: Option<nat>)   // a `RequestException`: before the file was opened, or mid-stream after `partial` bytes
    | WriteFailed(partial: Option<nat>)     // any other error once the response was accepted, e.g. from writing the file

  /** What the downloader does that takes time or touches the network. */
  datatype Event = Request(url: string) | RetryPause | ImagePause

  /** `MAX_RETRIES` and `SKIP_EXISTING` of the configuration. */
  datatype Config = Config(maxRetries: int, skipExisting: bool)

  /** The statistics, the files on disk with their sizes, and the events so far. */
  datatype Snapshot = Snapshot(stats: Stats, disk: map<string, nat>, log: seq<Event>)

  /**
   * Opening the path of the post directory itself for writing fails: after
   * an accepted response the attempt ends with an error that is not a
   * `RequestException`.
   */
  function Effective(a: Attempt, writable: bool): Attempt {
    if writable then a
    else match a
      case Fetched(_) => WriteFailed(None)
      case RequestFailed(Some(_)) => WriteFailed(None)
      case WriteFailed(Some(_)) => WriteFailed(None)
      case _ => a
  }

  function Failed(s: Snapshot): Snapshot {
    s.(stats := s.stats.(failed := s.stats.failed + 1))
  }

  /**
   * The retry loop from attempt `k` on, and what `download_image` then
   * returns: `Some(true)` or `Some(false)`, or `None` when the loop does not
   * run at all and the function falls off its end.
   */
  function Attempts(cfg: Config, s: Snapshot, url: string, path: string, writable: bool, tries: nat -> Attempt, k: nat): (res: (Snapshot, Option<bool>))
    ensures res.1.None? <==> k >= cfg.maxRetries
    ensures res.1.None? ==> res.0 == s
    ensures res.1 == Some(false) ==> res.0.stats == s.stats.(failed := s.stats.failed + 1)
    ensures res.1 == Some(true) ==>
      writable && path in res.0.disk && res.0.stats == s.stats.(bytes := s.stats.bytes + res.0.disk[path])
    ensures s.disk.Keys <= res.0.disk.Keys
    ensures |s.log| <= |res.0.log| && res.0.log[..|s.log|] == s.log
    decreases if k < cfg.maxRetries then cfg.maxRetries - k else 0
  {
    if k >= cfg.maxRetries then (s, None)
    else
      var s1 := s.(log := s.log + [Request(url)]);
      match Effective(tries(k), writable)
      case Fetched(size) =>
        (s1.(disk := s1.disk[path := size], stats := s1.stats.(bytes := s1.stats.bytes + size)), Some(true))
      case WriteFailed(p) =>
        (Failed(s1.(disk := Store(s1.disk, path, p))), Some(false))
      case RequestFailed(p) =>
        var s2 := s1.(disk := Store(s1.disk, path, p));
        if k < cfg.maxRetries - 1 then
          var (s3, r) := Attempts(cfg, s2.(log := s2.log + [RetryPause]), url, path, writable, tries, k + 1);
          assert (s2.log + [RetryPause])[..|s.log|] == s.log;
          (s3, r)
        else (Failed(s2), Some(false))
  }

  /** One pass of the retry loop. */
  lemma AttemptsStep(cfg: Config, s: Snapshot, url: string, path: string, writable: bool, tries: nat -> Attempt, k: nat, a: Attempt)
    requires k < cfg.maxRetries
    requires a == Effective(tries(k), writable)
    ensures var s1 := s.(log := s.log + [Request(url)]);
      Attempts(cfg, s, url, path, writable, tries, k) ==
        match a
        case Fetched(size) => (s1.(disk := s1.disk[path := size], stats := s1.stats.(bytes := s1.stats.bytes + size)), Some(true))
        case WriteFailed(p) => (Failed(s1.(disk := Store(s1.disk, path, p))), Some(false))
        case RequestFailed(p) =>
          var s2 := s1.(disk := Store(s1.disk, path, p));
          if k < cfg.maxRetries - 1 then Attempts(cfg, s2.(log := s2.log + [RetryPause]), url, path, writable, tries, k + 1)
          else (Failed(s2), Some(false))
  {
  }

  /** `download_image(url, save_dir, index)` from state `s`. */
  function Download(cfg: Config, s: Snapshot, url: string, saveDir: string, index: int, tries: nat -> Attempt): (res: (Snapshot, Option<bool>))
  {
    DownloadNamed(cfg, s, url, GenerateFilename(url, index), saveDir, tries)
  }

  /** The same, once the file name is known. */
  function DownloadNamed(cfg: Config, s: Snapshot, url: string, name: string, saveDir: string, tries: nat -> Attempt): (res: (Snapshot, Option<bool>))
  {
    var path := JoinPath(saveDir, name);
    if cfg.skipExisting && Exists(s.disk, name, path) then
      (s.(stats := s.stats.(skipped := s.stats.skipped + 1)), Some(true))
    else Attempts(cfg, s, url, path, !IsDirName(name), tries, 0)
  }

  /** The attempts made for the job at position `j` of the run. */
  function Tries(oracle: (nat, nat) -> Attempt, j: nat): nat -> Attempt {
    (k: nat) => oracle(j, k)
  }

  /**
   * One iteration of the inner loop of `download_user_images`. How the file
   * name is chosen is a parameter, `nameOf`; the downloader uses
   * `GenerateFilename`, and the methods below require exactly that
   * (`IsGenerateFilename`).
   */
  function Step(cfg: Config, s: Snapshot, job: Job, tries: nat -> Attempt, nameOf: (string, int) -> string): Snapshot {
    var (s1, success) := DownloadNamed(cfg, s, job.url, nameOf(job.url, job.index), job.dir, tries);
    var s2 := if success == Some(true) then s1.(stats := s1.stats.(downloaded := s1.stats.downloaded + 1)) else s1;
    s2.(log := s2.log + [ImagePause])
  }

  /** The jobs run one after the other. */
  function Run(cfg: Config, s: Snapshot, jobs: seq<Job>, oracle: (nat, nat) -> Attempt, nameOf: (string, int) -> string): Snapshot {
    if jobs == [] then s
    else Step(cfg, Run(cfg, s, jobs[..|jobs| - 1], oracle, nameOf), jobs[|jobs| - 1], Tries(oracle, |jobs| - 1), nameOf)
  }

  lemma RunAppend(cfg: Config, s: Snapshot, jobs: seq<Job>, job: Job, oracle: (nat, nat) -> Attempt, nameOf: (string, int) -> string)
    ensures Run(cfg, s, jobs + [job], oracle, nameOf) == Step(cfg, Run(cfg, s, jobs, oracle, nameOf), job, Tries(oracle, |jobs|), nameOf)
  {
    assert (jobs + [job])[..|jobs|] == jobs;
  }

  /** The events of `n` failed attempts that are each followed by a retry: a request and a pause, `n` times. */
  function Retried(url: string, n: nat): (r: seq<Event>)
    ensures |r| == 2 * n
  {
    if n == 0 then [] else Retried(url, n - 1) + [Request(url), RetryPause]
  }

  /** An attempt that fails before the file is opened, and so leaves the disk alone. */
  predicate Refused(a: Attempt) {
    a == RequestFailed(None)
  }

  /**
   * Attempts `k` to `m - 1` fail before the file is opened, and each is
   * retried: the loop reaches attempt `m` with a request and a pause per
   * failure logged and nothing else changed.
   */
  lemma {:induction false} RetriesUntil(cfg: Config, s: Snapshot, url: string, path: string, writable: bool,
                                        tries: nat -> Attempt, k: nat, m: nat)
    requires k <= m < cfg.maxRetries
    requires forall j :: k <= j < m ==> Refused(Effective(tries(j), writable))
    ensures Attempts(cfg, s, url, path, writable, tries, k) ==
      Attempts(cfg, s.(log := s.log + Retried(url, m - k)), url, path, writable, tries, m)
    decreases m - k
  {
    if k == m {
      assert s.log + Retried(url, 0) == s.log;
      assert s.(log := s.log + Retried(url, m - k)) == s;
    } else {
      var s2 := s.(log := s.log + [Request(url), RetryPause]);
      RetryOnce(cfg, s, url, path, writable, tries, k);
      RetriesUntil(cfg, s2, url, path, writable, tries, k + 1, m);
      RetriedFront(url, m - k);
      assert s2.log + Retried(url, m - (k + 1)) == s.log + Retried(url, m - k);
    }
  }

  /** One attempt that fails before the file is opened and is retried. */
  lemma RetryOnce(cfg: Config, s: Snapshot, url: string, path: string, writable: bool, tries: nat -> Attempt, k: nat)
    requires k < cfg.maxRetries - 1
    requires Refused(Effective(tries(k), writable))
    ensures Attempts(cfg, s, url, path, writable, tries, k) ==
      Attempts(cfg, s.(log := s.log + [Request(url), RetryPause]), url, path, writable, tries, k + 1)
  {
    var s1 := s.(log := s.log + [Request(url)]);
    AttemptsStep(cfg, s, url, path, writable, tries, k, RequestFailed(None));
    assert s1.(disk := Store(s1.disk, path, None)).(log := s1.log + [RetryPause]) == s.(log := s.log + [Request(url), RetryPause]);
  }

  lemma {:induction false} RetriedFront(url: string, n: nat)
    requires n > 0
    ensures Retried(url, n) == [Request(url), RetryPause] + Retried(url, n - 1)
  {
    if n > 1 {
      RetriedFront(url, n - 1);
    }
  }

  /**
   * Whatever the attempts yield: the loop stops at the first attempt `k + n`
   * that is not a `RequestException`, or after the last allowed one. It logs
   * one request per attempt made, a pause after each but the last and none
   * after it, and it succeeds exactly when that last attempt wrote the file.
   */
  lemma {:induction false} AttemptsLog(cfg: Config, s: Snapshot, url: string, path: string, writable: bool,
                                       tries: nat -> Attempt, k: nat) returns (n: nat)
    requires k < cfg.maxRetries
    ensures k + n < cfg.maxRetries
    ensures forall j :: k <= j < k + n ==> Effective(tries(j), writable).RequestFailed?
    ensures Effective(tries(k + n), writable).RequestFailed? ==> k + n == cfg.maxRetries - 1
    ensures Attempts(cfg, s, url, path, writable, tries, k).0.log == s.log + Retried(url, n) + [Request(url)]
    ensures Attempts(cfg, s, url, path, writable, tries, k).1 == Some(Effective(tries(k + n), writable).Fetched?)
    decreases cfg.maxRetries - k
  {
    var a := Effective(tries(k), writable);
    AttemptsStep(cfg, s, url, path, writable, tries, k, a);
    if a.RequestFailed? && k < cfg.maxRetries - 1 {
      var s1 := s.(log := s.log + [Request(url)]);
      var s2 := s1.(disk := Store(s1.disk, path, a.partial));
      var s3 := s2.(log := s2.log + [RetryPause]);
      var m := AttemptsLog(cfg, s3, url, path, writable, tries, k + 1);
      n := m + 1;
      RetriedFront(url, n);
      assert s3.log + Retried(url, m) + [Request(url)] == s.log + Retried(url, n) + [Request(url)];
    } else {
      n := 0;
      assert s.log + Retried(url, 0) + [Request(url)] == s.log + [Request(url)];
    }
  }

  /**
   * A download that succeeds after `m` failed attempts: `m` requests each
   * followed by a pause, then the request that succeeds, and no pause after
   * it; the file is written and its size counted.
   */
  lemma SuccessAfterRetries(cfg: Config, s: Snapshot, url: string, path: string, tries: nat -> Attempt, m: nat, size: nat)
    requires m < cfg.maxRetries
    requires forall j :: 0 <= j < m ==> Refused(tries(j))
    requires tries(m) == Fetched(size)
    ensures Attempts(cfg, s, url, path, true, tries, 0) ==
      (Snapshot(s.stats.(bytes := s.stats.bytes + size), s.disk[path := size], s.log + Retried(url, m) + [Request(url)]), Some(true))
  {
    RetriesUntil(cfg, s, url, path, true, tries, 0, m);
    var s1 := s.(log := s.log + Retried(url, m));
    AttemptsStep(cfg, s1, url, path, true, tries, m, tries(m));
  }

  /**
   * When every attempt fails before the file is opened, exactly `maxRetries`
   * requests are made, with a pause between two of them but none after
   * the last, and the download counts as failed.
   */
  lemma AllAttemptsFail(cfg: Config, s: Snapshot, url: string, path: string, writable: bool, tries: nat -> Attempt)
    requires cfg.maxRetries >= 1
    requires forall j :: 0 <= j < cfg.maxRetries ==> Refused(Effective(tries(j), writable))
    ensures Attempts(cfg, s, url, path, writable, tries, 0) ==
      (Failed(s.(log := s.log + Retried(url, cfg.maxRetries - 1) + [Request(url)])), Some(false))
  {
    var m := cfg.maxRetries - 1;
    RetriesUntil(cfg, s, url, path, writable, tries, 0, m);
    var s1 := s.(log := s.log + Retried(url, m));
    AttemptsStep(cfg, s1, url, path, writable, tries, m, Effective(tries(m), writable));
    assert Store(s1.disk, path, None) == s1.disk;
  }

  /** An error other than a `RequestException` ends the download at once: one request, no retry. */
  lemma WriteErrorNotRetried(cfg: Config, s: Snapshot, url: string, path: string, writable: bool, tries: nat -> Attempt, p: Option<nat>)
    requires cfg.maxRetries >= 1
    requires Effective(tries(0), writable) == WriteFailed(p)
    ensures Attempts(cfg, s, url, path, writable, tries, 0) ==
      (Failed(Snapshot(s.stats, Store(s.disk, path, p), s.log + [Request(url)])), Some(false))
  {
    AttemptsStep(cfg, s, url, path, writable, tries, 0, WriteFailed(p));
  }

  /**
   * A second download of an image that the first one stored, or skipped,
   * is skipped: it only counts one more skip and makes no request.
   */
  lemma RedownloadSkips(cfg: Config, s: Snapshot, url: string, saveDir: string, name: string,
                        tries: nat -> Attempt, tries2: nat -> Attempt)
    requires cfg.skipExisting
    requires DownloadNamed(cfg, s, url, name, saveDir, tries).1 == Some(true)
    ensures var s1 := DownloadNamed(cfg, s, url, name, saveDir, tries).0;
      DownloadNamed(cfg, s1, url, name, saveDir, tries2) == (s1.(stats := s1.stats.(skipped := s1.stats.skipped + 1)), Some(true))
  {
  }

  /** The counters one iteration of the inner loop changes. */
  predicate StepCounts(cfg: Config, before: Stats, after: Stats) {
    && after.total == before.total
    && after.bytes >= before.bytes
    && (after.bytes != before.bytes ==>
         after.downloaded == before.downloaded + 1 && after.skipped == before.skipped && after.failed == before.failed)
    && after.skipped - before.skipped <= after.downloaded - before.downloaded
    && (if cfg.maxRetries >= 1 then after.downloaded + after.failed == before.downloaded + before.failed + 1
        else after.failed == before.failed && after.downloaded - before.downloaded == after.skipped - before.skipped)
    && before.downloaded <= after.downloaded && before.skipped <= after.skipped && before.failed <= after.failed
    && after.skipped <= before.skipped + 1
  }

  /**
   * Each image is counted once, as downloaded or as failed, when at least
   * one attempt is allowed; a skipped image is counted as downloaded too.
   * With no attempt allowed only skips are counted.
   */
  lemma StepAccounting(cfg: Config, s: Snapshot, job: Job, tries: nat -> Attempt, nameOf: (string, int) -> string)
    ensures StepCounts(cfg, s.stats, Step(cfg, s, job, tries, nameOf).stats)
    ensures s.disk.Keys <= Step(cfg, s, job, tries, nameOf).disk.Keys
    ensures var r := Step(cfg, s, job, tries, nameOf);
      var path := JoinPath(job.dir, nameOf(job.url, job.index));
      r.stats.bytes == s.stats.bytes || (path in r.disk && r.stats.bytes == s.stats.bytes + r.disk[path])
  {
    var name := nameOf(job.url, job.index);
    var path := JoinPath(job.dir, name);
    if !(cfg.skipExisting && Exists(s.disk, name, path)) {
      var (s1, ok) := Attempts(cfg, s, job.url, path, !IsDirName(name), tries, 0);
      assert DownloadNamed(cfg, s, job.url, name, job.dir, tries) == (s1, ok);
      match ok
      case Some(true) => assert s1.stats == s.stats.(bytes := s1.stats.bytes);
      case Some(false) => assert s1.stats == s.stats.(failed := s.stats.failed + 1);
      case None => assert s1 == s && cfg.maxRetries < 1;
    }
  }

  /**
   * An image whose file exists is skipped when skipping is on: one more skip
   * and one more download are counted, no request is made, and the bytes
   * and the files stay as they were.
   */
  lemma StepSkips(cfg: Config, s: Snapshot, job: Job, tries: nat -> Attempt, nameOf: (string, int) -> string)
    requires cfg.skipExisting
    requires Exists(s.disk, nameOf(job.url, job.index), JoinPath(job.dir, nameOf(job.url, job.index)))
    ensures Step(cfg, s, job, tries, nameOf) ==
      Snapshot(s.stats.(skipped := s.stats.skipped + 1, downloaded := s.stats.downloaded + 1), s.disk, s.log + [ImagePause])
  {
  }

  /** No attempt on a path that cannot be written touches the disk. */
  lemma {:induction false} AttemptsUnwritable(cfg: Config, s: Snapshot, url: string, path: string,
                                              tries: nat -> Attempt, k: nat)
    ensures Attempts(cfg, s, url, path, false, tries, k).0.disk == s.disk
    decreases if k < cfg.maxRetries then cfg.maxRetries - k else 0
  {
    if k < cfg.maxRetries {
      var a := Effective(tries(k), false);
      AttemptsStep(cfg, s, url, path, false, tries, k, a);
      if a.RequestFailed? && k < cfg.maxRetries - 1 {
        var s1 := s.(log := s.log + [Request(url)]);
        AttemptsUnwritable(cfg, s1.(log := s1.log + [RetryPause]), url, path, tries, k + 1);
      }
    }
  }

  /**
   * A name that joins to a directory ("", "." or "..") never yields a file:
   * the disk is left as it was, and the download succeeds only as a skip.
   */
  lemma DirectoryNameNeverWritten(cfg: Config, s: Snapshot, url: string, name: string, saveDir: string, tries: nat -> Attempt)
    requires IsDirName(name)
    ensures var (r, ok) := DownloadNamed(cfg, s, url, name, saveDir, tries);
      r.disk == s.disk && (ok == Some(true) <==> cfg.skipExisting)
  {
    if !cfg.skipExisting {
      AttemptsUnwritable(cfg, s, url, JoinPath(saveDir, name), tries, 0);
    }
  }

  /** The counters of a whole run, from any starting statistics. */
  lemma {:induction false} RunAccounting(cfg: Config, s: Snapshot, jobs: seq<Job>, oracle: (nat, nat) -> Attempt, nameOf: (string, int) -> string)
    ensures var r := Run(cfg, s, jobs, oracle, nameOf).stats;
      && r.total == s.stats.total
      && r.bytes >= s.stats.bytes
      && r.skipped - s.stats.skipped <= r.downloaded - s.stats.downloaded
      && s.stats.skipped <= r.skipped <= s.stats.skipped + |jobs|
      && s.stats.downloaded <= r.downloaded && s.stats.failed <= r.failed
      && (cfg.maxRetries >= 1 ==> r.downloaded + r.failed == s.stats.downloaded + s.stats.failed + |jobs|)
      && (cfg.maxRetries < 1 ==> r.failed == s.stats.failed && r.downloaded - s.stats.downloaded == r.skipped - s.stats.skipped)
    ensures s.disk.Keys <= Run(cfg, s, jobs, oracle, nameOf).disk.Keys
  {
    if jobs != [] {
      var init := jobs[..|jobs| - 1];
      RunAccounting(cfg, s, init, oracle, nameOf);
      StepAccounting(cfg, Run(cfg, s, init, oracle, nameOf), jobs[|jobs| - 1], Tries(oracle, |jobs| - 1), nameOf);
    }
  }

  /**
   * What `download_user_images` reports for a fresh downloader: every
   * image is counted under `downloaded` or under `failed`, and the skipped
   * ones are among the downloaded ones.
   */
  lemma FreshRunAccounting(cfg: Config, disk: map<string, nat>, userDir: string, posts: seq<PostData>,
                           oracle: (nat, nat) -> Attempt, nameOf: (string, int) -> string)
    requires cfg.maxRetries >= 1
    ensures var r := Run(cfg, Snapshot(NoStats.(total := TotalImages(posts)), disk, []), JobsOf(userDir, posts), oracle, nameOf).stats;
      r.downloaded + r.failed == r.total && r.skipped <= r.downloaded
  {
    JobsCount(userDir, posts);
    RunAccounting(cfg, Snapshot(NoStats.(total := TotalImages(posts)), disk, []), JobsOf(userDir, posts), oracle, nameOf);
  }

  class ImageDownloader {
    const outputDir: string
    const config: Config
    var stats: Stats
    var disk: map<string, nat>
    var log: seq<Event>

    function State(): Snapshot
      reads this
    {
      Snapshot(stats, disk, log)
    }

    /** A downloader with zeroed statistics, over the files already on disk. */
    constructor(outputDir: string, config: Config, disk: map<string, nat>)
      ensures this.outputDir == outputDir && this.config == config
      ensures State() == Snapshot(NoStats, disk, [])
    {
      this.outputDir := outputDir;
      this.config := config;
      this.stats := NoStats;
      this.disk := disk;
      this.log := [];
    }

    /** `download_image` */
    method DownloadImage(url: string, saveDir: string, index: int, tries: nat -> Attempt) returns (success: Option<bool>)
      modifies this
      ensures (State(), success) == Download(config, old(State()), url, saveDir, index, tries)
    {
      var filename := GenerateFilename(url, index);
      success := SaveNamed(url, filename, saveDir, tries);
    }

    /** The body of `download_image` after the file name is chosen: the skip test and the retry loop. */
    method SaveNamed(url: string, filename: string, saveDir: string, tries: nat -> Attempt) returns (success: Option<bool>)
      modifies this
      ensures (State(), success) == DownloadNamed(config, old(State()), url, filename, saveDir, tries)
    {
      var filepath := JoinPath(saveDir, filename);
      if config.skipExisting && (IsDirName(filename) || filepath in disk) {
        stats := stats.(skipped := stats.skipped + 1);
        return Some(true);
      }
      success := Retry(url, filepath, !IsDirName(filename), tries);
    }

    /** The retry loop of `download_image`, and what the function returns after it. */
    method Retry(url: string, filepath: string, writable: bool, tries: nat -> Attempt) returns (success: Option<bool>)
      modifies this
      ensures (State(), success) == Attempts(config, old(State()), url, filepath, writable, tries, 0)
    {
      ghost var goal := Attempts(config, State(), url, filepath, writable, tries, 0);
      var attempt: nat := 0;
      while attempt < config.maxRetries
        invariant goal == Attempts(config, State(), url, filepath, writable, tries, attempt)
        decreases config.maxRetries - attempt
      {
        var outcome := Effective(tries(attempt), writable);
        ghost var s1 := State().(log := log + [Request(url)]);
        AttemptsStep(config, State(), url, filepath, writable, tries, attempt, outcome);
        log := log + [Request(url)];
        match outcome {
          case Fetched(size) =>
            disk := disk[filepath := size];
            stats := stats.(bytes := stats.bytes + size);
            assert State() == s1.(disk := s1.disk[filepath := size], stats := s1.stats.(bytes := s1.stats.bytes + size));
            return Some(true);
          case WriteFailed(p) =>
            disk := Store(disk, filepath, p);
            stats := stats.(failed := stats.failed + 1);
            assert State() == Failed(s1.(disk := Store(s1.disk, filepath, p)));
            return Some(false);
          case RequestFailed(p) =>
            disk := Store(disk, filepath, p);
            ghost var s2 := s1.(disk := Store(s1.disk, filepath, p));
            assert State() == s2;
            if attempt < config.maxRetries - 1 {
              log := log + [RetryPause];
              assert State() == s2.(log := s2.log + [RetryPause]);
            } else {
              stats := stats.(failed := stats.failed + 1);
              assert State() == Failed(s2);
              return Some(false);
            }
        }
        attempt := attempt + 1;
      }
      return None;
    }

    /** One pass of the inner loop of `download_user_images`: download, count a success, pause. */
    method DownloadJob(job: Job, tries: nat -> Attempt, ghost nameOf: (string, int) -> string)
      requires IsGenerateFilename(nameOf)
      modifies this
      ensures State() == Step(config, old(State()), job, tries, nameOf)
    {
      ghost var pre := State();
      var success := DownloadImage(job.url, job.dir, job.index, tries);
      ghost var (s1, ok) := Download(config, pre, job.url, job.dir, job.index, tries);
      assert State() == s1 && success == ok;
      if success == Some(true) {
        stats := stats.(downloaded := stats.downloaded + 1);
      }
      log := log + [ImagePause];
    }

    /** The images of one post, in order, each with its 1-based index: the inner loop of `download_user_images`. */
    method DownloadPost(postDir: string, images: seq<string>, oracle: (nat, nat) -> Attempt, first: nat,
                        ghost start: Snapshot, ghost before: seq<Job>, ghost nameOf: (string, int) -> string)
      requires IsGenerateFilename(nameOf)
      modifies this
      requires first == |before| && State() == Run(config, start, before, oracle, nameOf)
      ensures State() == Run(config, start, before + PostJobs(postDir, images), oracle, nameOf)
    {
      ghost var done := before;
      var j := first;
      for k := 0 to |images|
        invariant j == |done| == |before| + k
        invariant done == before + PostJobs(postDir, images[..k])
        invariant State() == Run(config, start, done, oracle, nameOf)
      {
        var job := Job(images[k], postDir, k + 1);
        PostJobsPrefix(postDir, images, k);
        RunAppend(config, start, done, job, oracle, nameOf);
        DownloadJob(job, Tries(oracle, j), nameOf);
        done := done + [job];
        j := j + 1;
      }
      assert images[..|images|] == images;
    }

    /** The loop over the posts of `download_user_images`, after `total` is set. */
    method DownloadPosts(userDir: string, posts: seq<PostData>, oracle: (nat, nat) -> Attempt, ghost nameOf: (string, int) -> string)
      requires IsGenerateFilename(nameOf)
      modifies this
      ensures State() == Run(config, old(State()), JobsOf(userDir, posts), oracle, nameOf)
    {
      ghost var start := State();
      var j := 0;
      for p := 0 to |posts|
        invariant j == |JobsOf(userDir, posts[..p])|
        invariant State() == Run(config, start, JobsOf(userDir, posts[..p]), oracle, nameOf)
      {
        JobsOfPrefix(userDir, posts, p);
        var images := posts[p].images;
        if images != [] {
          var postDir := PostDir(userDir, posts[p].postId);
          DownloadPost(postDir, images, oracle, j, start, JobsOf(userDir, posts[..p]), nameOf);
          j := j + |images|;
        } else {
          EmptyPostNoJobs(userDir, posts, p);
        }
      }
      assert posts[..|posts|] == posts;
    }

    /** `download_user_images`: the statistics it returns, without the derived rate and size text. */
    method DownloadUserImages(userId: string, posts: seq<PostData>, oracle: (nat, nat) -> Attempt) returns (result: Stats)
      modifies this
      ensures State() == Run(config, old(State()).(stats := old(stats).(total := TotalImages(posts))),
                             JobsOf(UserDir(outputDir, userId), posts), oracle, GenerateFilename)
      ensures result == stats
    {
      stats := stats.(total := TotalImages(posts));
      DownloadPosts(UserDir(outputDir, userId), posts, oracle, GenerateFilename);
      result := stats;
    }
  }
}
