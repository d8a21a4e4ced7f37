/**
 * The asynchronous downloader `AsyncImageDownloader`: one request per
 * image, the images taken in batches with a pause between two batches, and
 * a rate gate that keeps the starts of two requests at least
 * `RATE_LIMIT_DELAY` apart.
 *
 * The coroutines of one batch are run one after the other, each to its
 * end, in the order of the task list. What a request meets is given by a
 * function from the position of the task in that list to a `Transfer`;
 * time is a clock of whole ticks kept with the files on disk.
 */
module AsyncDownloader {
  import opened Options
  import opened Filenames
  import opened Jobs

  /** What the one request of a download meets, and how long it lasts. */
  datatype Transfer =
    | Completed(size: nat, took: nat)           // the response was streamed to the file in full
    | Broken(partial: Option<nat>, took: nat)   // an exception: the request failed, or the stream broke after `partial` bytes reached the file

  /** A request started at a time of the clock, or the pause between two batches. */
  datatype Event = Started(url: string, at: int) | BatchPause

  /** `SKIP_EXISTING`, `RATE_LIMIT_DELAY`, `BATCH_SIZE` and `BATCH_PAUSE`, the delays in clock ticks. */
  datatype Config = Config(skipExisting: bool, rateLimitDelay: nat, batchSize: int, batchPause: nat)

  /** The statistics, the files on disk, `last_download_time`, the clock, and the events so far. */
  datatype Snapshot = Snapshot(stats: Stats, disk: map<string, nat>, lastDownloadTime: int, now: int, log: seq<Event>)

  /**
   * When the gate lets a request start that arrives at `now`: at once if
   * the previous start is at least `delay` ago, otherwise exactly `delay`
   * after the previous start.
   */
  function Gate(delay: nat, last: int, now: int): (start: int)
    ensures start >= now && start >= last + delay
    ensures start == now || start == last + delay
  {
    if now - last < delay then last + delay else now
  }

  /** The rate gate and the start of the request: the clock moves on to the start, then by the length of the transfer. */
  function Begin(cfg: Config, s: Snapshot, url: string, t: Transfer): (r: Snapshot)
    ensures r.stats == s.stats && r.disk == s.disk
  {
    var start := Gate(cfg.rateLimitDelay, s.lastDownloadTime, s.now);
    s.(lastDownloadTime := start, now := start + t.took, log := s.log + [Started(url, start)])
  }

  /** What the transfer leaves behind once the request is under way: only the statistics and the files change. */
  function Outcome(s: Snapshot, path: string, name: string, t: Transfer): (r: (Snapshot, bool))
    ensures r.0.log == s.log && r.0.lastDownloadTime == s.lastDownloadTime && r.0.now == s.now
  {
    match t
    case Completed(size, _) =>
      if IsDirName(name) then (s.(stats := s.stats.(failed := s.stats.failed + 1)), false)
      else (s.(disk := s.disk[path := size],
               stats := s.stats.(bytes := s.stats.bytes + size, downloaded := s.stats.downloaded + 1)), true)
    case Broken(p, _) =>
      (s.(disk := if IsDirName(name) then s.disk else Store(s.disk, path, p),
          stats := s.stats.(failed := s.stats.failed + 1)), false)
  }

  /** `download_image(session, url, save_dir, index)` once the file name is known, from state `s`. */
  function Fetch(cfg: Config, s: Snapshot, url: string, name: string, saveDir: string, t: Transfer): (Snapshot, bool)
  {
    var path := JoinPath(saveDir, name);
    if cfg.skipExisting && Exists(s.disk, name, path) then
      (s.(stats := s.stats.(skipped := s.stats.skipped + 1)), true)
    else
      Outcome(Begin(cfg, s, url, t), path, name, t)
  }

  /** One coroutine of the task list: `download_image(session, url, post_dir, index)`. */
  function Task(cfg: Config, s: Snapshot, job: Job, t: Transfer): Snapshot {
    Fetch(cfg, s, job.url, GenerateFilename(job.url, job.index), job.dir, t).0
  }

  /**
   * `task` is `Task`. The statements about whole runs take the coroutine as
   * a parameter, and the methods that perform them require this of it.
   */
  ghost predicate IsTask(cfg: Config, task: (Snapshot, Job, Transfer) -> Snapshot) {
    forall s, job, t {:trigger Task(cfg, s, job, t)} :: task(s, job, t) == Task(cfg, s, job, t)
  }

  /** The coroutine of a downloader with configuration `cfg`. */
  function TaskOf(cfg: Config): (task: (Snapshot, Job, Transfer) -> Snapshot)
    ensures IsTask(cfg, task)
  {
    (s, job, t) => Task(cfg, s, job, t)
  }

  /** `await asyncio.sleep(BATCH_PAUSE)` */
  function Pause(cfg: Config, s: Snapshot): Snapshot {
    s.(now := s.now + cfg.batchPause, log := s.log + [BatchPause])
  }

  /** The tasks at positions `i` to `k - 1`, one after the other: one batch under `gather`. */
  function Gathered(cfg: Config, s: Snapshot, tasks: seq<Job>, i: nat, k: nat, oracle: nat -> Transfer,
                    task: (Snapshot, Job, Transfer) -> Snapshot): Snapshot
    requires i <= k <= |tasks|
    decreases k
  {
    if k == i then s
    else task(Gathered(cfg, s, tasks, i, k - 1, oracle, task), tasks[k - 1], oracle(k - 1))
  }

  /** The end of the batch that starts at position `i`: `tasks[i:i + BATCH_SIZE]`. */
  function BatchEnd(cfg: Config, total: nat, i: nat): (end: nat)
    requires cfg.batchSize > 0 && i < total
    ensures i < end <= total && end <= i + cfg.batchSize
    ensures end < i + cfg.batchSize ==> end == total
  {
    if i + cfg.batchSize < total then i + cfg.batchSize else total
  }

  /**
   * The loop of `_download_with_batches` from the batch that starts at
   * position `i` on: the batch, then a pause if another batch follows.
   */
  function Batches(cfg: Config, s: Snapshot, tasks: seq<Job>, i: nat, oracle: nat -> Transfer,
                   task: (Snapshot, Job, Transfer) -> Snapshot): Snapshot
    requires cfg.batchSize > 0
    decreases |tasks| - i
  {
    if i >= |tasks| then s
    else
      var s1 := Gathered(cfg, s, tasks, i, BatchEnd(cfg, |tasks|, i), oracle, task);
      Batches(cfg, if i + cfg.batchSize < |tasks| then Pause(cfg, s1) else s1, tasks, i + cfg.batchSize, oracle, task)
  }

  /** The start times of the requests in a log, in order. */
  function Starts(log: seq<Event>): seq<int> {
    if log == [] then []
    else Starts(log[..|log| - 1]) + (if log[|log| - 1].Started? then [log[|log| - 1].at] else [])
  }

  /** The number of pauses between batches in a log. */
  function Pauses(log: seq<Event>): nat {
    if log == [] then 0
    else Pauses(log[..|log| - 1]) + (if log[|log| - 1] == BatchPause then 1 else 0)
  }

  lemma EventAppend(log: seq<Event>, e: Event)
    ensures Starts(log + [e]) == Starts(log) + (if e.Started? then [e.at] else [])
    ensures Pauses(log + [e]) == Pauses(log) + (if e == BatchPause then 1 else 0)
  {
    assert (log + [e])[..|log|] == log;
  }

  /** Consecutive starts are at least `delay` apart. */
  predicate Spaced(ts: seq<int>, delay: nat) {
    forall i :: 0 < i < |ts| ==> ts[i - 1] + delay <= ts[i]
  }

  /**
   * What the rate gate keeps: `last_download_time` is the start of the last
   * request and not later than the clock, and the requests started so far
   * are spaced at least `RATE_LIMIT_DELAY` apart.
   */
  predicate RateLimited(cfg: Config, s: Snapshot) {
    && s.lastDownloadTime <= s.now
    && Spaced(Starts(s.log), cfg.rateLimitDelay)
    && (Starts(s.log) != [] ==> Starts(s.log)[|Starts(s.log)| - 1] == s.lastDownloadTime)
  }

  /** The counters one task changes: exactly one of `downloaded`, `skipped` and `failed` goes up by one. */
  predicate OneCounter(before: Stats, after: Stats, success: bool) {
    && after.total == before.total
    && after.bytes >= before.bytes
    && (after.downloaded == before.downloaded ==> after.bytes == before.bytes)
    && after.downloaded + after.skipped + after.failed == before.downloaded + before.skipped + before.failed + 1
    && before.downloaded <= after.downloaded && before.skipped <= after.skipped && before.failed <= after.failed
    && (success <==> after.failed == before.failed)
  }

  /**
   * One download bumps exactly one counter, and reports success unless it
   * failed; it makes at most one request, and none when it skips; the files
   * on disk only grow.
   */
  lemma FetchAccounting(cfg: Config, s: Snapshot, url: string, name: string, saveDir: string, t: Transfer)
    ensures var (r, success) := Fetch(cfg, s, url, name, saveDir, t);
      && OneCounter(s.stats, r.stats, success)
      && (r.stats.skipped == s.stats.skipped ==> r.log == s.log + [Started(url, r.lastDownloadTime)])
      && (r.stats.skipped != s.stats.skipped ==> r.log == s.log && r.lastDownloadTime == s.lastDownloadTime)
      && s.disk.Keys <= r.disk.Keys
      && (r.stats.downloaded != s.stats.downloaded ==>
            t.Completed? && r.stats.bytes == s.stats.bytes + t.size && r.disk == s.disk[JoinPath(saveDir, name) := t.size])
  {
  }

  lemma SpacedAppend(ts: seq<int>, x: int, delay: nat)
    requires Spaced(ts, delay)
    requires ts != [] ==> ts[|ts| - 1] + delay <= x
    ensures Spaced(ts + [x], delay)
  {
  }

  /** The gate lets the new request start no earlier than `RATE_LIMIT_DELAY` after the previous one. */
  lemma BeginRateLimited(cfg: Config, s: Snapshot, url: string, t: Transfer)
    requires RateLimited(cfg, s)
    ensures RateLimited(cfg, Begin(cfg, s, url, t))
  {
    var start := Gate(cfg.rateLimitDelay, s.lastDownloadTime, s.now);
    EventAppend(s.log, Started(url, start));
    SpacedAppend(Starts(s.log), start, cfg.rateLimitDelay);
  }

  /** A download keeps the rate gate's promise. */
  lemma FetchRateLimited(cfg: Config, s: Snapshot, url: string, name: string, saveDir: string, t: Transfer)
    requires RateLimited(cfg, s)
    ensures RateLimited(cfg, Fetch(cfg, s, url, name, saveDir, t).0)
  {
    var path := JoinPath(saveDir, name);
    if !(cfg.skipExisting && Exists(s.disk, name, path)) {
      BeginRateLimited(cfg, s, url, t);
    }
  }

  /** The pause between batches only moves the clock on. */
  lemma PauseRateLimited(cfg: Config, s: Snapshot)
    requires RateLimited(cfg, s)
    ensures RateLimited(cfg, Pause(cfg, s))
    ensures Pauses(Pause(cfg, s).log) == Pauses(s.log) + 1
  {
    EventAppend(s.log, BatchPause);
  }

  /**
   * A later download of an image that an earlier one stored, or skipped,
   * is skipped: one more skip, no request, nothing else changes.
   */
  lemma RefetchSkips(cfg: Config, s: Snapshot, url: string, name: string, saveDir: string, t: Transfer, t2: Transfer)
    requires cfg.skipExisting
    requires Fetch(cfg, s, url, name, saveDir, t).1
    ensures var s1 := Fetch(cfg, s, url, name, saveDir, t).0;
      Fetch(cfg, s1, url, name, saveDir, t2) == (s1.(stats := s1.stats.(skipped := s1.stats.skipped + 1)), true)
  {
  }

  /** Division with remainder is unique. */
  lemma DivMod(b: int, a: int, q: int, r: int)
    requires b > 0 && 0 <= r < b && a == b * q + r
    ensures a / b == q
  {
    var d := q - a / b;
    assert b * d == a % b - r;
    if d >= 1 {
      MulAtLeast(b, d);
    } else if d <= -1 {
      MulAtLeast(b, -d);
    }
  }

  lemma MulAtLeast(b: int, d: int)
    requires b > 0 && d >= 1
    ensures b * d >= b
  {
  }

  /**
   * What running `n` tasks changes, as a whole: the counters of
   * `FetchAccounting` added up. Every task bumps exactly one counter, and a
   * request goes out for every task that is not skipped.
   */
  predicate Counted(s: Snapshot, r: Snapshot, n: nat) {
    && r.stats.total == s.stats.total
    && r.stats.bytes >= s.stats.bytes
    && (r.stats.downloaded == s.stats.downloaded ==> r.stats.bytes == s.stats.bytes)
    && r.stats.downloaded + r.stats.skipped + r.stats.failed == s.stats.downloaded + s.stats.skipped + s.stats.failed + n
    && s.stats.downloaded <= r.stats.downloaded && s.stats.skipped <= r.stats.skipped && s.stats.failed <= r.stats.failed
    && |Starts(r.log)| - |Starts(s.log)| == (r.stats.downloaded - s.stats.downloaded) + (r.stats.failed - s.stats.failed)
    && s.disk.Keys <= r.disk.Keys
  }

  /** The same, within one batch: no pause. */
  predicate Accounted(s: Snapshot, r: Snapshot, n: nat) {
    Counted(s, r, n) && Pauses(r.log) == Pauses(s.log)
  }

  lemma AccountedTrans(s: Snapshot, m: Snapshot, r: Snapshot, n1: nat, n2: nat)
    requires Accounted(s, m, n1) && Accounted(m, r, n2)
    ensures Accounted(s, r, n1 + n2)
  {
  }

  /** One coroutine, in the terms of `Accounted`. */
  lemma TaskAccounting(cfg: Config, s: Snapshot, job: Job, t: Transfer)
    ensures Accounted(s, Task(cfg, s, job, t), 1)
  {
    var name := GenerateFilename(job.url, job.index);
    FetchAccounting(cfg, s, job.url, name, job.dir, t);
    var r := Task(cfg, s, job, t);
    if r.log != s.log {
      EventAppend(s.log, Started(job.url, r.lastDownloadTime));
    }
  }

  /** `task` bumps exactly one counter at each run, as `TaskAccounting` says of `Task`. */
  ghost predicate CountsOne(task: (Snapshot, Job, Transfer) -> Snapshot) {
    forall s, job, t {:trigger task(s, job, t)} :: Accounted(s, task(s, job, t), 1)
  }

  /** `task` keeps the rate gate's promise, as `FetchRateLimited` says of `Task`. */
  ghost predicate KeepsRate(cfg: Config, task: (Snapshot, Job, Transfer) -> Snapshot) {
    forall s, job, t {:trigger task(s, job, t)} :: RateLimited(cfg, s) ==> RateLimited(cfg, task(s, job, t))
  }

  lemma TaskOfCountsOne(cfg: Config)
    ensures CountsOne(TaskOf(cfg))
  {
    forall s, job, t ensures Accounted(s, TaskOf(cfg)(s, job, t), 1) {
      TaskAccounting(cfg, s, job, t);
    }
  }

  lemma TaskOfKeepsRate(cfg: Config)
    ensures KeepsRate(cfg, TaskOf(cfg))
  {
    forall s, job, t | RateLimited(cfg, s) ensures RateLimited(cfg, TaskOf(cfg)(s, job, t)) {
      FetchRateLimited(cfg, s, job.url, GenerateFilename(job.url, job.index), job.dir, t);
    }
  }

  /** Every task of a batch runs once and bumps exactly one counter; a request goes out for each task not skipped. */
  lemma {:induction false} GatheredAccounting(cfg: Config, s: Snapshot, tasks: seq<Job>, i: nat, k: nat, oracle: nat -> Transfer,
                                              task: (Snapshot, Job, Transfer) -> Snapshot)
    requires CountsOne(task)
    requires i <= k <= |tasks|
    ensures Accounted(s, Gathered(cfg, s, tasks, i, k, oracle, task), k - i)
    decreases k
  {
    if k > i {
      var g := Gathered(cfg, s, tasks, i, k - 1, oracle, task);
      GatheredAccounting(cfg, s, tasks, i, k - 1, oracle, task);
      var r := task(g, tasks[k - 1], oracle(k - 1));
      assert Accounted(g, r, 1);
      AccountedTrans(s, g, r, k - 1 - i, 1);
    }
  }

  lemma CountedTrans(s: Snapshot, m: Snapshot, r: Snapshot, n1: nat, n2: nat)
    requires Counted(s, m, n1) && Counted(m, r, n2)
    ensures Counted(s, r, n1 + n2)
  {
  }

  lemma PauseCounted(cfg: Config, s: Snapshot)
    ensures Counted(s, Pause(cfg, s), 0)
    ensures Pauses(Pause(cfg, s).log) == Pauses(s.log) + 1
  {
    EventAppend(s.log, BatchPause);
  }

  /** The whole loop from the batch at position `i` on: every remaining task runs once. */
  lemma {:induction false} BatchesAccounting(cfg: Config, s: Snapshot, tasks: seq<Job>, i: nat, oracle: nat -> Transfer,
                                             task: (Snapshot, Job, Transfer) -> Snapshot)
    requires CountsOne(task)
    requires cfg.batchSize > 0
    ensures Counted(s, Batches(cfg, s, tasks, i, oracle, task), if i < |tasks| then |tasks| - i else 0)
    decreases |tasks| - i
  {
    if i < |tasks| {
      var end := BatchEnd(cfg, |tasks|, i);
      var s1 := Gathered(cfg, s, tasks, i, end, oracle, task);
      var s2 := if i + cfg.batchSize < |tasks| then Pause(cfg, s1) else s1;
      var r := Batches(cfg, s2, tasks, i + cfg.batchSize, oracle, task);
      assert Batches(cfg, s, tasks, i, oracle, task) == r;
      GatheredAccounting(cfg, s, tasks, i, end, oracle, task);
      if i + cfg.batchSize < |tasks| {
        PauseCounted(cfg, s1);
      }
      CountedTrans(s, s1, s2, end - i, 0);
      BatchesAccounting(cfg, s2, tasks, i + cfg.batchSize, oracle, task);
      CountedTrans(s, s2, r, end - i, if i + cfg.batchSize < |tasks| then |tasks| - i - cfg.batchSize else 0);
    }
  }

  /** The pauses among `n` tasks in batches of `b`: one before every batch but the first. */
  function PauseCount(n: nat, b: nat): nat
    requires b > 0
  {
    if n <= b then 0 else 1 + PauseCount(n - b, b)
  }

  /** The pause count in closed form, `(n - 1) // b`. */
  lemma {:induction false} PauseCountClosed(n: nat, b: nat)
    requires b > 0 && n > 0
    ensures PauseCount(n, b) == (n - 1) / b
  {
    if n <= b {
      DivMod(b, n - 1, 0, n - 1);
    } else {
      PauseCountClosed(n - b, b);
      var x := n - b - 1;
      DivMod(b, n - 1, x / b + 1, x % b);
    }
  }

  /** `task` makes no pause between batches, as `CountsOne` implies. */
  ghost predicate KeepsPauses(task: (Snapshot, Job, Transfer) -> Snapshot) {
    forall s, job, t {:trigger task(s, job, t)} :: Pauses(task(s, job, t).log) == Pauses(s.log)
  }

  lemma CountsOneKeepsPauses(task: (Snapshot, Job, Transfer) -> Snapshot)
    requires CountsOne(task)
    ensures KeepsPauses(task)
  {
    forall s, job, t ensures Pauses(task(s, job, t).log) == Pauses(s.log) {
      assert Accounted(s, task(s, job, t), 1);
    }
  }

  /** A batch makes no pause of its own. */
  lemma {:induction false} GatheredPauses(cfg: Config, s: Snapshot, tasks: seq<Job>, i: nat, k: nat, oracle: nat -> Transfer,
                                          task: (Snapshot, Job, Transfer) -> Snapshot)
    requires KeepsPauses(task)
    requires i <= k <= |tasks|
    ensures Pauses(Gathered(cfg, s, tasks, i, k, oracle, task).log) == Pauses(s.log)
    decreases k
  {
    if k > i {
      GatheredPauses(cfg, s, tasks, i, k - 1, oracle, task);
    }
  }

  /** There is one pause between each two consecutive batches and none after the last. */
  lemma {:induction false} BatchesPauses(cfg: Config, s: Snapshot, tasks: seq<Job>, i: nat, oracle: nat -> Transfer,
                                         task: (Snapshot, Job, Transfer) -> Snapshot)
    requires KeepsPauses(task)
    requires cfg.batchSize > 0
    ensures Pauses(Batches(cfg, s, tasks, i, oracle, task).log) ==
      Pauses(s.log) + PauseCount(if i < |tasks| then |tasks| - i else 0, cfg.batchSize)
    decreases |tasks| - i
  {
    if i < |tasks| {
      var b := cfg.batchSize;
      var end := BatchEnd(cfg, |tasks|, i);
      var s1 := Gathered(cfg, s, tasks, i, end, oracle, task);
      var s2 := if i + b < |tasks| then Pause(cfg, s1) else s1;
      var r := Batches(cfg, s2, tasks, i + b, oracle, task);
      assert Batches(cfg, s, tasks, i, oracle, task) == r;
      GatheredPauses(cfg, s, tasks, i, end, oracle, task);
      BatchesPauses(cfg, s2, tasks, i + b, oracle, task);
      if i + b < |tasks| {
        PauseCounted(cfg, s1);
        assert PauseCount(|tasks| - i, b) == 1 + PauseCount(|tasks| - i - b, b);
      } else {
        assert PauseCount(|tasks| - i, b) == 0;
      }
    }
  }

  /**
   * Every image counted once, under exactly one of `downloaded`, `skipped`
   * and `failed`, with `(total - 1) // BATCH_SIZE` pauses between batches.
   */
  predicate FullyCounted(cfg: Config, r: Snapshot)
    requires cfg.batchSize > 0
  {
    && r.stats.downloaded + r.stats.skipped + r.stats.failed == r.stats.total
    && Pauses(r.log) == if r.stats.total == 0 then 0 else (r.stats.total - 1) / cfg.batchSize
  }

  /**
   * What `download_user_images` counts for a fresh downloader: every image
   * once, under exactly one of `downloaded`, `skipped` and `failed`, with
   * `(total - 1) // BATCH_SIZE` pauses between batches.
   */
  lemma FreshAccounting(cfg: Config, disk: map<string, nat>, clock: int, userDir: string, posts: seq<PostData>,
                        oracle: nat -> Transfer)
    requires cfg.batchSize > 0
    ensures var s0 := Snapshot(NoStats.(total := TotalImages(posts)), disk, 0, clock, []);
      FullyCounted(cfg, Batches(cfg, s0, JobsOf(userDir, posts), 0, oracle, TaskOf(cfg)))
  {
    JobsCount(userDir, posts);
    TaskOfCountsOne(cfg);
    var s0 := Snapshot(NoStats.(total := TotalImages(posts)), disk, 0, clock, []);
    RunAccounting(cfg, s0, JobsOf(userDir, posts), oracle, TaskOf(cfg));
  }

  /** The same for any coroutine that bumps one counter per run, from zeroed counters and an empty log. */
  lemma RunAccounting(cfg: Config, s0: Snapshot, tasks: seq<Job>, oracle: nat -> Transfer, task: (Snapshot, Job, Transfer) -> Snapshot)
    requires CountsOne(task)
    requires cfg.batchSize > 0
    requires s0.stats.downloaded == s0.stats.skipped == s0.stats.failed == 0 && s0.log == []
    requires s0.stats.total == |tasks|
    ensures FullyCounted(cfg, Batches(cfg, s0, tasks, 0, oracle, task))
  {
    BatchesAccounting(cfg, s0, tasks, 0, oracle, task);
    CountsOneKeepsPauses(task);
    BatchesPauses(cfg, s0, tasks, 0, oracle, task);
    if tasks != [] {
      PauseCountClosed(|tasks|, cfg.batchSize);
    }
  }

  lemma {:induction false} GatheredRateLimited(cfg: Config, s: Snapshot, tasks: seq<Job>, i: nat, k: nat, oracle: nat -> Transfer,
                                               task: (Snapshot, Job, Transfer) -> Snapshot)
    requires KeepsRate(cfg, task)
    requires i <= k <= |tasks|
    requires RateLimited(cfg, s)
    ensures RateLimited(cfg, Gathered(cfg, s, tasks, i, k, oracle, task))
    decreases k
  {
    if k > i {
      var g := Gathered(cfg, s, tasks, i, k - 1, oracle, task);
      GatheredRateLimited(cfg, s, tasks, i, k - 1, oracle, task);
      assert RateLimited(cfg, task(g, tasks[k - 1], oracle(k - 1)));
    }
  }

  /** The rate gate holds throughout a run that starts where it holds. */
  lemma {:induction false} BatchesRateLimited(cfg: Config, s: Snapshot, tasks: seq<Job>, i: nat, oracle: nat -> Transfer,
                                              task: (Snapshot, Job, Transfer) -> Snapshot)
    requires KeepsRate(cfg, task)
    requires cfg.batchSize > 0
    requires RateLimited(cfg, s)
    ensures RateLimited(cfg, Batches(cfg, s, tasks, i, oracle, task))
    decreases |tasks| - i
  {
    if i < |tasks| {
      var s1 := Gathered(cfg, s, tasks, i, BatchEnd(cfg, |tasks|, i), oracle, task);
      var s2 := if i + cfg.batchSize < |tasks| then Pause(cfg, s1) else s1;
      assert Batches(cfg, s, tasks, i, oracle, task) == Batches(cfg, s2, tasks, i + cfg.batchSize, oracle, task);
      GatheredRateLimited(cfg, s, tasks, i, BatchEnd(cfg, |tasks|, i), oracle, task);
      if i + cfg.batchSize < |tasks| {
        PauseRateLimited(cfg, s1);
      }
      BatchesRateLimited(cfg, s2, tasks, i + cfg.batchSize, oracle, task);
    }
  }

  /**
   * A downloader whose `last_download_time` is still 0, at a clock that is
   * not negative, starts its requests at least `RATE_LIMIT_DELAY` apart
   * for the whole of `_download_with_batches`.
   */
  lemma FreshRateLimited(cfg: Config, stats: Stats, disk: map<string, nat>, clock: int, tasks: seq<Job>, oracle: nat -> Transfer)
    requires clock >= 0 && cfg.batchSize > 0
    ensures var r := Batches(cfg, Snapshot(stats, disk, 0, clock, []), tasks, 0, oracle, TaskOf(cfg));
      Spaced(Starts(r.log), cfg.rateLimitDelay)
  {
    TaskOfKeepsRate(cfg);
    BatchesRateLimited(cfg, Snapshot(stats, disk, 0, clock, []), tasks, 0, oracle, TaskOf(cfg));
  }

  class AsyncImageDownloader {
    const outputDir: string
    const config: Config
    var stats: Stats
    var disk: map<string, nat>
    var lastDownloadTime: int
    var now: int
    var log: seq<Event>

    function State(): Snapshot
      reads this
    {
      Snapshot(stats, disk, lastDownloadTime, now, log)
    }

    /** A downloader with zeroed statistics and `last_download_time` 0, over the files on disk, at time `clock`. */
    constructor(outputDir: string, config: Config, disk: map<string, nat>, clock: int)
      ensures this.outputDir == outputDir && this.config == config
      ensures State() == Snapshot(NoStats, disk, 0, clock, [])
    {
      this.outputDir := outputDir;
      this.config := config;
      this.stats := NoStats;
      this.disk := disk;
      this.lastDownloadTime := 0;
      this.now := clock;
      this.log := [];
    }

    /** `download_image` */
    method DownloadImage(url: string, saveDir: string, index: int, t: Transfer) returns (success: bool)
      modifies this
      ensures (State(), success) == Fetch(config, old(State()), url, GenerateFilename(url, index), saveDir, t)
    {
      var filename := GenerateFilename(url, index);
      success := SaveNamed(url, filename, saveDir, t);
    }

    /** The body of `download_image` after the file name is chosen: the skip test, the rate gate and the request. */
    method SaveNamed(url: string, filename: string, saveDir: string, t: Transfer) returns (success: bool)
      modifies this
      ensures (State(), success) == Fetch(config, old(State()), url, filename, saveDir, t)
    {
      var filepath := JoinPath(saveDir, filename);
      if config.skipExisting && (IsDirName(filename) || filepath in disk) {
        stats := stats.(skipped := stats.skipped + 1);
        return true;
      }
      StartRequest(url, t);
      success := Finish(filepath, filename, t);
    }

    /** The rate gate of `download_image`, then the request goes out. */
    method StartRequest(url: string, t: Transfer)
      modifies this
      ensures State() == Begin(config, old(State()), url, t)
    {
      var timeSinceLast := now - lastDownloadTime;
      if timeSinceLast < config.rateLimitDelay {
        now := now + (config.rateLimitDelay - timeSinceLast);
      }
      lastDownloadTime := now;
      log := log + [Started(url, now)];
      now := now + t.took;
    }

    /** The response streamed to `filepath`, or the exception that ends the attempt. */
    method Finish(filepath: string, filename: string, t: Transfer) returns (success: bool)
      modifies this
      ensures (State(), success) == Outcome(old(State()), filepath, filename, t)
    {
      match t {
        case Completed(size, _) =>
          if IsDirName(filename) {
            stats := stats.(failed := stats.failed + 1);
            return false;
          }
          disk := disk[filepath := size];
          stats := stats.(bytes := stats.bytes + size, downloaded := stats.downloaded + 1);
          return true;
        case Broken(p, _) =>
          if !IsDirName(filename) {
            disk := Store(disk, filepath, p);
          }
          stats := stats.(failed := stats.failed + 1);
          return false;
      }
    }

    /** One coroutine run to its end; what it returns is dropped, as `gather` leaves it unused. */
    method RunTask(job: Job, t: Transfer, ghost task: (Snapshot, Job, Transfer) -> Snapshot)
      requires IsTask(config, task)
      modifies this
      ensures State() == task(old(State()), job, t)
    {
      var _ := DownloadImage(job.url, job.dir, job.index, t);
      assert State() == Task(config, old(State()), job, t);
    }

    /** One batch, `tasks[i:end]`, in order. */
    method RunBatch(tasks: seq<Job>, i: nat, end: nat, oracle: nat -> Transfer, ghost task: (Snapshot, Job, Transfer) -> Snapshot)
      requires IsTask(config, task)
      requires i <= end <= |tasks|
      modifies this
      ensures State() == Gathered(config, old(State()), tasks, i, end, oracle, task)
    {
      ghost var s0 := State();
      for k := i to end
        invariant State() == Gathered(config, s0, tasks, i, k, oracle, task)
      {
        ghost var before := State();
        RunTask(tasks[k], oracle(k), task);
      }
    }

    /**
     * `_download_with_batches`: `raised` when `range` refuses a zero
     * `BATCH_SIZE`; with a negative one the range is empty and nothing runs.
     */
    method DownloadWithBatches(tasks: seq<Job>, oracle: nat -> Transfer, ghost task: (Snapshot, Job, Transfer) -> Snapshot) returns (raised: bool)
      requires IsTask(config, task)
      modifies this
      ensures raised <==> config.batchSize == 0
      ensures config.batchSize <= 0 ==> State() == old(State())
      ensures config.batchSize > 0 ==> State() == Batches(config, old(State()), tasks, 0, oracle, task)
    {
      if config.batchSize == 0 {
        return true;
      }
      raised := false;
      if config.batchSize < 0 {
        return;
      }
      BatchLoop(tasks, oracle, task);
    }

    /** The loop of `_download_with_batches` over `range(0, total, BATCH_SIZE)` for a positive `BATCH_SIZE`. */
    method BatchLoop(tasks: seq<Job>, oracle: nat -> Transfer, ghost task: (Snapshot, Job, Transfer) -> Snapshot)
      requires IsTask(config, task)
      requires config.batchSize > 0
      modifies this
      ensures State() == Batches(config, old(State()), tasks, 0, oracle, task)
    {
      ghost var goal := Batches(config, State(), tasks, 0, oracle, task);
      var i := 0;
      while i < |tasks|
        invariant goal == Batches(config, State(), tasks, i, oracle, task)
        decreases |tasks| - i
      {
        BatchStep(tasks, i, oracle, task);
        i := i + config.batchSize;
      }
    }

    /** One pass of the loop of `_download_with_batches`: the batch at position `i`, then the pause if another follows. */
    method BatchStep(tasks: seq<Job>, i: nat, oracle: nat -> Transfer, ghost task: (Snapshot, Job, Transfer) -> Snapshot)
      requires IsTask(config, task)
      requires config.batchSize > 0 && i < |tasks|
      modifies this
      ensures Batches(config, old(State()), tasks, i, oracle, task) == Batches(config, State(), tasks, i + config.batchSize, oracle, task)
    {
      RunBatch(tasks, i, BatchEnd(config, |tasks|, i), oracle, task);
      ghost var s1 := State();
      if i + config.batchSize < |tasks| {
        now := now + config.batchPause;
        log := log + [BatchPause];
        assert State() == Pause(config, s1);
      }
    }

    /** The tasks of one post: `enumerate(images, 1)` in the post directory. */
    method PostTasks(postDir: string, images: seq<string>) returns (jobs: seq<Job>)
      ensures jobs == PostJobs(postDir, images)
    {
      jobs := [];
      for idx := 0 to |images|
        invariant jobs == PostJobs(postDir, images[..idx])
      {
        PostJobsPrefix(postDir, images, idx);
        jobs := jobs + [Job(images[idx], postDir, idx + 1)];
      }
      assert images[..|images|] == images;
    }

    /** The task list of `download_user_images`: the images of the posts in order, each with its position in its post. */
    method BuildTasks(userDir: string, posts: seq<PostData>) returns (tasks: seq<Job>)
      ensures tasks == JobsOf(userDir, posts)
    {
      tasks := [];
      for p := 0 to |posts|
        invariant tasks == JobsOf(userDir, posts[..p])
      {
        JobsOfPrefix(userDir, posts, p);
        var images := posts[p].images;
        if images != [] {
          var jobs := PostTasks(PostDir(userDir, posts[p].postId), images);
          tasks := tasks + jobs;
        } else {
          EmptyPostNoJobs(userDir, posts, p);
        }
      }
      assert posts[..|posts|] == posts;
    }

    /**
     * `download_user_images`: the task list in the order of the posts and
     * of their images, then the batches. The result is `downloaded`, or
     * `None` when `_download_with_batches` raises.
     */
    method DownloadUserImages(userId: string, posts: seq<PostData>, oracle: nat -> Transfer) returns (result: Option<nat>)
      modifies this
      ensures var s0 := old(State()).(stats := old(stats).(total := TotalImages(posts)));
        var tasks := JobsOf(UserDir(outputDir, userId), posts);
        State() == if config.batchSize > 0 then Batches(config, s0, tasks, 0, oracle, TaskOf(config)) else s0
      ensures result == if config.batchSize == 0 then None else Some(stats.downloaded)
    {
      var userDir := UserDir(outputDir, userId);
      stats := stats.(total := TotalImages(posts));
      var tasks := BuildTasks(userDir, posts);
      var raised := DownloadWithBatches(tasks, oracle, TaskOf(config));
      if raised {
        return None;
      }
      return Some(stats.downloaded);
    }
  }
}
