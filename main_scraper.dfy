/** The scraping pipeline of `app/main_scraper.py`: every listed boss page
    is fetched and parsed into a record, failures becoming "no record", and
    the records are kept in listing order. The concurrent fan-out
    (semaphore and `asyncio.gather`) is modelled as one task per listing
    entry, taken in order. */
module MainScraper {
  import opened Wrappers
  import opened BossModel
  import opened WikitextParser
  import opened TibiaWikiClient

  /** `MAX_CONCURRENT_REQUESTS`. */
  const MaxConcurrentRequests: nat := 10

  /** The name a listing entry is processed under: its `title`, or
      `"Unknown"`. */
  function BossName(info: CategoryMember): string {
    if info.title.Some? then info.title.value else "Unknown"
  }

  /** `process_boss`: the wikitext of the entry's page, fetched by page id,
      parsed under the entry's name. Every error (a missing page id, a
      failed request, a parser error) and an empty or absent wikitext give
      None. `fetch` answers page queries; `templatesOf` reads markup. */
  function ProcessBoss(info: CategoryMember, fetch: Query -> Result<seq<PageEntry>, RequestError>,
                       templatesOf: string -> Option<seq<Template>>): Option<Boss>
  {
    match BossWikitext(info.pageid, None, fetch)
    case Err(_) => None
    case Ok(None) => None
    case Ok(Some(wikitext)) =>
      if wikitext == "" then None
      else
        match ParseWikitext(wikitext, Some(BossName(info)), templatesOf)
        case Err(_) => None
        case Ok(boss) => Some(boss)
  }

  /** A record comes out exactly when the page's wikitext is fetched, is
      not empty, and parses; it is then the parsed record. */
  lemma ProcessBossOutcome(info: CategoryMember, fetch: Query -> Result<seq<PageEntry>, RequestError>,
                           templatesOf: string -> Option<seq<Template>>, boss: Boss)
    ensures ProcessBoss(info, fetch, templatesOf) == Some(boss) <==>
      exists wikitext: string ::
        BossWikitext(info.pageid, None, fetch) == Ok(Some(wikitext)) && wikitext != "" &&
        ParseWikitext(wikitext, Some(BossName(info)), templatesOf) == Ok(boss)
  {
    if ProcessBoss(info, fetch, templatesOf) == Some(boss) {
      var wikitext := BossWikitext(info.pageid, None, fetch).value.value;
      assert BossWikitext(info.pageid, None, fetch) == Ok(Some(wikitext));
    }
  }

  /** An entry without a page id (or with page id 0) never yields a record:
      the lookup raises `ValueError`, which is caught. */
  lemma NoPageIdNoRecord(info: CategoryMember, fetch: Query -> Result<seq<PageEntry>, RequestError>,
                         templatesOf: string -> Option<seq<Template>>)
    requires info.pageid.None? || info.pageid.value == 0
    ensures ProcessBoss(info, fetch, templatesOf).None?
  {
  }

  /** What one task of the fan-out ends with: a record, no record, or an
      exception. */
  datatype TaskResult = Record(boss: Boss) | NoRecord | Raised(message: string)

  function AsTaskResult(r: Option<Boss>): TaskResult {
    if r.Some? then Record(r.value) else NoRecord
  }

  /** The results of `asyncio.gather` over the listing, in listing order. */
  function ProcessAll(bosses: seq<CategoryMember>, fetch: Query -> Result<seq<PageEntry>, RequestError>,
                      templatesOf: string -> Option<seq<Template>>): (results: seq<TaskResult>)
    ensures |results| == |bosses|
    decreases |bosses|
  {
    if |bosses| == 0 then []
    else ProcessAll(bosses[..|bosses| - 1], fetch, templatesOf) +
         [AsTaskResult(ProcessBoss(bosses[|bosses| - 1], fetch, templatesOf))]
  }

  lemma {:induction false} ProcessAllAt(bosses: seq<CategoryMember>, fetch: Query -> Result<seq<PageEntry>, RequestError>,
                                        templatesOf: string -> Option<seq<Template>>, i: nat)
    requires i < |bosses|
    ensures ProcessAll(bosses, fetch, templatesOf)[i] == AsTaskResult(ProcessBoss(bosses[i], fetch, templatesOf))
    decreases |bosses|
  {
    if i < |bosses| - 1 {
      ProcessAllAt(bosses[..|bosses| - 1], fetch, templatesOf, i);
    }
  }

  /** `process_boss` never raises, so no task ends with an exception. */
  lemma NoTaskRaises(bosses: seq<CategoryMember>, fetch: Query -> Result<seq<PageEntry>, RequestError>,
                     templatesOf: string -> Option<seq<Template>>)
    ensures forall i :: 0 <= i < |bosses| ==> !ProcessAll(bosses, fetch, templatesOf)[i].Raised?
  {
    forall i | 0 <= i < |bosses|
      ensures !ProcessAll(bosses, fetch, templatesOf)[i].Raised?
    {
      ProcessAllAt(bosses, fetch, templatesOf, i);
    }
  }

  /** The records among the results, in order. */
  function KeepRecords(results: seq<TaskResult>): (kept: seq<Boss>)
    ensures |kept| <= |results|
    ensures forall b :: b in kept <==> Record(b) in results
    decreases |results|
  {
    if |results| == 0 then []
    else
      var init := results[..|results| - 1];
      var last := results[|results| - 1];
      assert results == init + [last];
      KeepRecords(init) + (if last.Record? then [last.boss] else [])
  }

  /** Keeping records distributes over concatenation: the order of the
      records is the order of the results. */
  lemma {:induction false} KeepRecordsAppend(a: seq<TaskResult>, b: seq<TaskResult>)
    ensures KeepRecords(a + b) == KeepRecords(a) + KeepRecords(b)
    decreases |b|
  {
    if |b| > 0 {
      var init := b[..|b| - 1];
      assert (a + b)[..|a + b| - 1] == a + init;
      KeepRecordsAppend(a, init);
    } else {
      assert a + b == a;
    }
  }

  /** A run of tasks that all produced records keeps every one of them. */
  lemma {:induction false} AllRecordsKept(results: seq<TaskResult>)
    requires forall i :: 0 <= i < |results| ==> results[i].Record?
    ensures |KeepRecords(results)| == |results|
    ensures forall i :: 0 <= i < |results| ==> KeepRecords(results)[i] == results[i].boss
    decreases |results|
  {
    if |results| > 0 {
      AllRecordsKept(results[..|results| - 1]);
    }
  }

  /** The filtering loop of `main`: keeps the records, in order, and
      counts successes and failures. */
  method FilterResults(results: seq<TaskResult>)
    returns (processed: seq<Boss>, successCount: nat, failureCount: nat)
    ensures processed == KeepRecords(results)
    ensures successCount == |processed| && successCount + failureCount == |results|
  {
    processed := [];
    for i := 0 to |results|
      invariant processed == KeepRecords(results[..i])
    {
      assert results[..i + 1][..i] == results[..i];
      if results[i].Record? {
        processed := processed + [results[i].boss];
      }
    }
    assert results[..|results|] == results;
    successCount := |processed|;
    failureCount := |results| - successCount;
  }

  /** `main` once the listing is fetched: one task per entry, then the
      filtering and the counts. */
  method ProcessListing(bosses: seq<CategoryMember>, fetch: Query -> Result<seq<PageEntry>, RequestError>,
                        templatesOf: string -> Option<seq<Template>>)
    returns (processed: seq<Boss>, successCount: nat, failureCount: nat)
    ensures processed == KeepRecords(ProcessAll(bosses, fetch, templatesOf))
    ensures successCount == |processed| && failureCount == |bosses| - successCount
  {
    var results := ProcessAll(bosses, fetch, templatesOf);
    processed, successCount, failureCount := FilterResults(results);
  }

  /** A record is kept exactly when some listing entry yields it. */
  lemma KeptRecordsComeFromEntries(bosses: seq<CategoryMember>, fetch: Query -> Result<seq<PageEntry>, RequestError>,
                                   templatesOf: string -> Option<seq<Template>>, boss: Boss)
    ensures boss in KeepRecords(ProcessAll(bosses, fetch, templatesOf)) <==>
      exists i :: 0 <= i < |bosses| && ProcessBoss(bosses[i], fetch, templatesOf) == Some(boss)
  {
    var results := ProcessAll(bosses, fetch, templatesOf);
    if boss in KeepRecords(results) {
      var i :| 0 <= i < |results| && results[i] == Record(boss);
      ProcessAllAt(bosses, fetch, templatesOf, i);
      var r := ProcessBoss(bosses[i], fetch, templatesOf);
      assert AsTaskResult(r) == Record(boss);
      assert r == Some(boss);
    } else {
      forall i | 0 <= i < |bosses|
        ensures ProcessBoss(bosses[i], fetch, templatesOf) != Some(boss)
      {
        ProcessAllAt(bosses, fetch, templatesOf, i);
        assert results[i] != Record(boss);
      }
    }
  }
}
