/** `run_scraper_job`: the scraping pipeline run under the scraper lock.
    The job ensures the lock document, gives up when the lock is held, and
    otherwise runs the pipeline and releases the lock whatever happens. The
    records are saved in batches by `process_and_save_batch`, which is not
    part of this model: it enters as a function from a batch to the number
    of records saved, or the error it raises; so does `BATCH_SIZE`, as a
    positive parameter. */
module ScraperJob {
  import opened Wrappers
  import opened BossModel
  import opened WikitextParser
  import opened TibiaWikiClient
  import opened MainScraper
  import opened SystemJobs
  import opened DeadLetterLogger
  import ImageResolver

  /** How a call of the job ends: it gave up because the lock was held; an
      exception ended the work (caught, and logged); or it completed with
      its counts. */
  datatype JobOutcome = Skipped | Aborted | Completed(successCount: nat, failureCount: nat, totalSaved: nat)

  // ---------------------------------------------------------------------
  // Result filtering
  // ---------------------------------------------------------------------

  /** The dead-letter line written for a task that raised. */
  function DeadLetter(now: int, message: string): Line {
    Logged(Entry(now, "unknown", message, ParsingSnippet(None)))
  }

  /** The dead-letter lines the filtering loop writes, in order. */
  function DeadLetters(results: seq<TaskResult>, now: int): (es: seq<Line>)
    ensures |es| <= |results|
    decreases |results|
  {
    if |results| == 0 then []
    else
      var last := results[|results| - 1];
      DeadLetters(results[..|results| - 1], now) + (if last.Raised? then [DeadLetter(now, last.message)] else [])
  }

  /** Every dead-letter entry of the job names the boss `unknown`, has an
      empty snippet and carries the message of a task that raised. */
  lemma {:induction false} DeadLettersAreAnonymous(results: seq<TaskResult>, now: int)
    ensures forall e :: e in DeadLetters(results, now) ==>
      e.Logged? && e.entry.bossName == "unknown" && e.entry.rawDataSnippet == "" &&
      Raised(e.entry.errorMessage) in results
    decreases |results|
  {
    if |results| > 0 {
      var init := results[..|results| - 1];
      DeadLettersAreAnonymous(init, now);
      assert forall r :: r in init ==> r in results;
    }
  }

  /** The job's dead letters raise the log's count by the number of tasks
      that raised, whatever the file held before. */
  lemma DeadLettersCount(lines: seq<Line>, results: seq<TaskResult>, now: int)
    ensures CountedLines(lines + DeadLetters(results, now)) == CountedLines(lines) + |KeepRaised(results)|
  {
    DeadLettersAreAnonymous(results, now);
    OneDeadLetterPerRaise(results, now);
    LoggedLinesCount(lines, DeadLetters(results, now));
  }

  /** One entry per task that raised. */
  lemma {:induction false} OneDeadLetterPerRaise(results: seq<TaskResult>, now: int)
    ensures |DeadLetters(results, now)| == |KeepRaised(results)|
    decreases |results|
  {
    if |results| > 0 {
      OneDeadLetterPerRaise(results[..|results| - 1], now);
    }
  }

  /** The tasks that raised. */
  function KeepRaised(results: seq<TaskResult>): seq<TaskResult>
    decreases |results|
  {
    if |results| == 0 then []
    else
      var last := results[|results| - 1];
      KeepRaised(results[..|results| - 1]) + (if last.Raised? then [last] else [])
  }

  /** The pipeline's own tasks never raise, so the job writes no
      dead-letter entry for them. */
  lemma NoDeadLettersFromPipeline(bosses: seq<CategoryMember>, fetch: Query -> Result<seq<PageEntry>, RequestError>,
                                  templatesOf: string -> Option<seq<Template>>, now: int)
    ensures DeadLetters(ProcessAll(bosses, fetch, templatesOf), now) == []
  {
    var results := ProcessAll(bosses, fetch, templatesOf);
    NoTaskRaises(bosses, fetch, templatesOf);
    NoRaisedNoDeadLetters(results, now);
  }

  lemma {:induction false} NoRaisedNoDeadLetters(results: seq<TaskResult>, now: int)
    requires forall i :: 0 <= i < |results| ==> !results[i].Raised?
    ensures DeadLetters(results, now) == []
    decreases |results|
  {
    if |results| > 0 {
      NoRaisedNoDeadLetters(results[..|results| - 1], now);
    }
  }

  /** The filtering loop of the job: keeps the records in order and writes
      one dead-letter entry per task that raised. `writeSucceeds` says
      whether the log file can be written. */
  method FilterAndLog(log: DeadLetterLog, results: seq<TaskResult>, now: int, writeSucceeds: bool)
    returns (processed: seq<Boss>)
    modifies log
    ensures processed == KeepRecords(results)
    ensures log.lines == old(log.lines) + (if writeSucceeds then DeadLetters(results, now) else [])
  {
    processed := [];
    for i := 0 to |results|
      invariant processed == KeepRecords(results[..i])
      invariant log.lines == old(log.lines) + (if writeSucceeds then DeadLetters(results[..i], now) else [])
    {
      ghost var upTo := results[..i + 1];
      assert upTo[..i] == results[..i] && upTo[i] == results[i];
      assert KeepRecords(upTo) ==
        KeepRecords(results[..i]) + (if results[i].Record? then [results[i].boss] else []);
      assert DeadLetters(upTo, now) ==
        DeadLetters(results[..i], now) + (if results[i].Raised? then [DeadLetter(now, results[i].message)] else []);
      match results[i] {
        case Record(boss) =>
          processed := processed + [boss];
        case NoRecord =>
        case Raised(message) =>
          ghost var before := log.lines;
          log.LogParsingError(now, "unknown", message, None, writeSucceeds);
          if writeSucceeds {
            assert log.lines == before + [DeadLetter(now, message)];
          }
      }
    }
    assert results[..|results|] == results;
  }

  // ---------------------------------------------------------------------
  // Batches
  // ---------------------------------------------------------------------

  /** The sum of the counts the batches report, or the first error. */
  function SaveAll(batches: seq<seq<Boss>>, save: seq<Boss> -> Result<nat, string>): Result<nat, string>
    decreases |batches|
  {
    if |batches| == 0 then Ok(0)
    else
      match save(batches[0])
      case Err(e) => Err(e)
      case Ok(n) => AddTo(n, SaveAll(batches[1..], save))
  }

  function AddTo(n: nat, r: Result<nat, string>): Result<nat, string> {
    match r
    case Ok(m) => Ok(n + m)
    case Err(e) => Err(e)
  }

  /** The batch loop: `processed[i:i+BATCH_SIZE]` for `i` in
      `range(0, len(processed), BATCH_SIZE)`, each saved in turn, the counts
      added up. */
  method SaveInBatches(processed: seq<Boss>, batchSize: nat, save: seq<Boss> -> Result<nat, string>)
    returns (r: Result<nat, string>)
    requires batchSize > 0
    ensures r == SaveAll(ImageResolver.ChunkList(processed, batchSize), save)
  {
    var totalSaved := 0;
    var i := 0;
    while i < |processed|
      invariant 0 <= i
      invariant i < |processed| ==>
        SaveAll(ImageResolver.ChunkList(processed, batchSize), save) ==
        AddTo(totalSaved, SaveAll(ImageResolver.ChunkList(processed[i..], batchSize), save))
      invariant i >= |processed| ==> SaveAll(ImageResolver.ChunkList(processed, batchSize), save) == Ok(totalSaved)
      decreases |processed| - i
    {
      var end := if i + batchSize <= |processed| then i + batchSize else |processed|;
      var batch := processed[i..end];
      BatchStep(processed, batchSize, i);
      var saved := save(batch);
      if saved.Err? {
        return Err(saved.error);
      }
      totalSaved := totalSaved + saved.value;
      i := i + batchSize;
    }
    return Ok(totalSaved);
  }

  /** One turn of the batch loop: the chunks from `i` on are the slice
      from `i` followed by the chunks from `i + BATCH_SIZE` on. */
  lemma BatchStep(processed: seq<Boss>, n: nat, i: nat)
    requires n > 0 && i < |processed|
    ensures var end := if i + n <= |processed| then i + n else |processed|;
      ImageResolver.ChunkList(processed[i..], n) ==
        [processed[i..end]] + (if i + n < |processed| then ImageResolver.ChunkList(processed[i + n..], n) else [])
  {
    var rest := processed[i..];
    if |rest| > n {
      assert rest[..n] == processed[i..i + n];
      assert rest[n..] == processed[i + n..];
    } else {
      assert processed[i..|processed|] == rest;
    }
  }

  /** The batches hold every record exactly once, in order, all of
      `BATCH_SIZE` records except the last, and there are
      `ceil(len / BATCH_SIZE)` of them, the `total_batches` of the log
      line. */
  lemma BatchesCoverRecords(processed: seq<Boss>, n: nat)
    requires n > 0
    ensures ImageResolver.Flatten(ImageResolver.ChunkList(processed, n)) == processed
    ensures forall k :: 0 <= k < |ImageResolver.ChunkList(processed, n)| ==>
      0 < |ImageResolver.ChunkList(processed, n)[k]| <= n
    ensures forall k :: 0 <= k < |ImageResolver.ChunkList(processed, n)| - 1 ==>
      |ImageResolver.ChunkList(processed, n)[k]| == n
    ensures |ImageResolver.ChunkList(processed, n)| == (|processed| + n - 1) / n
  {
    ImageResolver.ChunksCoverItems(processed, n);
    ImageResolver.ChunkSizes(processed, n);
    ImageResolver.ChunkCount(processed, n);
    var c := |ImageResolver.ChunkList(processed, n)|;
    DivisionOfBounds(|processed| + n - 1, n, c);
  }

  /** `x // n == c` when `c * n <= x < (c + 1) * n`. */
  lemma DivisionOfBounds(x: int, n: nat, c: int)
    requires n > 0 && c * n <= x < (c + 1) * n
    ensures x / n == c
  {
    var q := x / n;
    if q < c {
      MulMonotone(q + 1, c, n);
    } else if q > c {
      MulMonotone(c + 1, q, n);
    }
  }

  lemma MulMonotone(a: int, b: int, n: nat)
    requires a <= b
    ensures a * n <= b * n
  {
    assert b * n - a * n == (b - a) * n;
  }

  /** When no batch reports more records saved than it holds, the total
      saved is at most the number of records. */
  lemma {:induction false} SavedAtMostRecords(batches: seq<seq<Boss>>, save: seq<Boss> -> Result<nat, string>)
    requires forall k :: 0 <= k < |batches| && save(batches[k]).Ok? ==> save(batches[k]).value <= |batches[k]|
    ensures SaveAll(batches, save).Ok? ==> SaveAll(batches, save).value <= |ImageResolver.Flatten(batches)|
    decreases |batches|
  {
    if |batches| > 0 {
      assert forall k :: 0 <= k < |batches| - 1 ==> batches[1..][k] == batches[k + 1];
      SavedAtMostRecords(batches[1..], save);
    }
  }

  // ---------------------------------------------------------------------
  // The job
  // ---------------------------------------------------------------------

  /** What the work under the lock ends with: `listing` is what
      `get_all_bosses` returned or raised. */
  function WorkOutcome(listing: Result<seq<CategoryMember>, RequestError>,
                       fetch: Query -> Result<seq<PageEntry>, RequestError>,
                       templatesOf: string -> Option<seq<Template>>,
                       batchSize: nat, save: seq<Boss> -> Result<nat, string>): JobOutcome
    requires batchSize > 0
  {
    match listing
    case Err(_) => Aborted
    case Ok(bosses) =>
      var processed := KeepRecords(ProcessAll(bosses, fetch, templatesOf));
      match SaveAll(ImageResolver.ChunkList(processed, batchSize), save)
      case Err(_) => Aborted
      case Ok(total) => Completed(|processed|, |bosses| - |processed|, total)
  }

  /** The body of the `try`. */
  method DoWork(log: DeadLetterLog, now: int, writeSucceeds: bool,
                listing: Result<seq<CategoryMember>, RequestError>,
                fetch: Query -> Result<seq<PageEntry>, RequestError>,
                templatesOf: string -> Option<seq<Template>>,
                batchSize: nat, save: seq<Boss> -> Result<nat, string>)
    returns (outcome: JobOutcome)
    requires batchSize > 0
    modifies log
    ensures outcome == WorkOutcome(listing, fetch, templatesOf, batchSize, save)
    ensures log.lines == old(log.lines) +
      (if listing.Ok? && writeSucceeds then DeadLetters(ProcessAll(listing.value, fetch, templatesOf), now) else [])
  {
    if listing.Err? {
      return Aborted;
    }
    var bosses := listing.value;
    var results := ProcessAll(bosses, fetch, templatesOf);
    var processed := FilterAndLog(log, results, now, writeSucceeds);
    var successCount := |processed|;
    var failureCount := |bosses| - successCount;
    var saved := SaveInBatches(processed, batchSize, save);
    if saved.Err? {
      return Aborted;
    }
    return Completed(successCount, failureCount, saved.value);
  }

  /** `run_scraper_job`. `tAcquire` and `tRelease` are the times of the
      acquire and of the release, `tLog` the time of the dead-letter
      entries. */
  method RunScraperJob(lock: ScraperLock, log: DeadLetterLog,
                       tAcquire: int, tRelease: int, tLog: int, writeSucceeds: bool,
                       listing: Result<seq<CategoryMember>, RequestError>,
                       fetch: Query -> Result<seq<PageEntry>, RequestError>,
                       templatesOf: string -> Option<seq<Template>>,
                       batchSize: nat, save: seq<Boss> -> Result<nat, string>)
    returns (outcome: JobOutcome)
    requires batchSize > 0
    modifies lock, log
    ensures var acquire := AcquireDoc(EnsureDoc(old(lock.doc)), tAcquire);
      (outcome.Skipped? <==> !acquire.0) &&
      (outcome.Skipped? ==> lock.doc == EnsureDoc(old(lock.doc)) && log.lines == old(log.lines)) &&
      (!outcome.Skipped? ==>
         outcome == WorkOutcome(listing, fetch, templatesOf, batchSize, save) &&
         lock.doc == ReleaseDoc(acquire.1, tRelease) &&
         log.lines == old(log.lines) +
           (if listing.Ok? && writeSucceeds then DeadLetters(ProcessAll(listing.value, fetch, templatesOf), tLog) else []))
  {
    lock.Ensure();
    var acquired := lock.Acquire(tAcquire);
    if !acquired {
      return Skipped;
    }
    outcome := DoWork(log, tLog, writeSucceeds, listing, fetch, templatesOf, batchSize, save);
    lock.Release(tRelease);
  }

  /** The job gives up exactly when another run holds the lock, and then
      leaves the document as it found it. */
  lemma SkipsOnlyWhenHeld(d: Option<LockDoc>, t: int)
    ensures !AcquireDoc(EnsureDoc(d), t).0 <==> d.Some? && d.value.status == Running
    ensures !AcquireDoc(EnsureDoc(d), t).0 ==> AcquireDoc(EnsureDoc(d), t).1 == d
  {
  }

  /** A run that took the lock leaves it idle, with no lock time and the
      release time as last run, whatever the work ended with. */
  lemma RunLeavesLockIdle(d: Option<LockDoc>, tAcquire: int, tRelease: int)
    requires AcquireDoc(EnsureDoc(d), tAcquire).0
    ensures ReleaseDoc(AcquireDoc(EnsureDoc(d), tAcquire).1, tRelease) ==
      Some(LockDoc(Idle, Some(tRelease), None))
  {
  }

  /** The counts of a completed run: successes are the records kept, and
      successes and failures add up to the bosses listed. */
  lemma CompletedCounts(listing: Result<seq<CategoryMember>, RequestError>,
                        fetch: Query -> Result<seq<PageEntry>, RequestError>,
                        templatesOf: string -> Option<seq<Template>>,
                        batchSize: nat, save: seq<Boss> -> Result<nat, string>)
    requires batchSize > 0
    requires WorkOutcome(listing, fetch, templatesOf, batchSize, save).Completed?
    ensures var o := WorkOutcome(listing, fetch, templatesOf, batchSize, save);
      listing.Ok? &&
      o.successCount == |KeepRecords(ProcessAll(listing.value, fetch, templatesOf))| &&
      o.successCount + o.failureCount == |listing.value|
  {
  }
}
