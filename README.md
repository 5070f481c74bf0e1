# Tibia boss API: a verified model of the wiki ingestion pipeline

This project models, in Dafny, the part of the Tibia boss API that turns
TibiaWiki data into boss records, together with the small pieces of state
around it:

- the boss record's field validators (`app/models/boss.py`), which turn the
  free text of hit points, experience, "walks through" and immunities into
  numbers and clean lists;
- the wikitext parser (`app/services/wikitext_parser.py`), which finds the
  first boss infobox among a page's templates and folds its parameters into
  the raw fields of a record;
- the image resolver (`app/services/image_resolver.py`), which deduplicates
  file names, queries them in batches of 50 and maps every name to a URL or
  to the placeholder image;
- the wiki client (`app/services/tibiawiki_client.py`), with its
  rate-limit retry loop and exponential backoff, its paginated listing of
  `Category:Bosses`, and the lookup of a page's wikitext;
- the scraper lock (`app/db/system_jobs.py`), a compare-and-set mutex over
  one document;
- the dead-letter log (`app/utils/dead_letter_logger.py`), an append-only
  log of failed records;
- the orchestration: `process_boss` and the result filtering of
  `app/main_scraper.py`, and `run_scraper_job` in
  `app/services/scraper_job.py`. The job takes the lock, fetches, parses,
  filters, saves in batches, and always releases the lock.

What the server answers, and what the markup library reads from a page, are
inputs of the model:

- the outcome of each request attempt is a function from the attempt
  number to the outcome;
- the replies to the listing requests are a sequence;
- the reply to a page query, or to an image batch, is given as data;
- the templates of a wikitext come from a function `templatesOf`.

Times are integers passed in. Whether a file write or a deletion succeeds
is a boolean passed in.

Files:

| file | module | models |
|---|---|---|
| `wrappers.dfy` | `Wrappers` | `Option` and `Result` |
| `text.dfy` | `Text` | the Python `str` operations and regular expressions the validators use (`strip`, `lower`, `replace`, `split`, `join`, `re.sub(r"\([^)]*\)")`, `re.findall(r"\d+")`, `int`, `str`) |
| `boss_model.dfy` | `BossModel` | `BossModel` and its four validators |
| `wikitext_parser.dfy` | `WikitextParser` | `WikitextParser.parse`, `_find_infobox_boss`, `_extract_template_data` |
| `image_resolver.dfy` | `ImageResolver` | `_chunk_list`, `_resolve_batch`, `resolve_images` |
| `tibiawiki_client.dfy` | `TibiaWikiClient` | `_request_with_backoff`, `get_all_bosses`, `get_boss_wikitext` |
| `system_jobs.dfy` | `SystemJobs` | `SystemJobsRepository` (class `ScraperLock`) |
| `dead_letter_logger.dfy` | `DeadLetterLogger` | `DeadLetterLogger` (class `DeadLetterLog`) |
| `main_scraper.dfy` | `MainScraper` | `process_boss` and the filtering of `main` |
| `scraper_job.dfy` | `ScraperJob` | `run_scraper_job` |

Code that updates state in place is modelled as imperative Dafny. Each
such method is proved equal to a specification function, and the
properties are proved about that function. This covers:

- the lock document and the log file, as classes;
- the retry loop, the pagination loop and the page search;
- the batch loops of the image resolver and of the job;
- the two loops of `_extract_template_data`;
- the filtering loops.

## Model

| member | source | states |
|---|---|---|
| `Text.Strip` | app/models/boss.py:38 | `str.strip()`: the result has no leading or trailing whitespace, and is no longer than the input |
| `Text.TrimLeft` | app/models/boss.py:38 | the left half of `strip`: the result is no longer than the input and does not start with whitespace |
| `Text.TrimLeftShape` | app/models/boss.py:38 | the left half of `strip` keeps a suffix of the input and drops only whitespace |
| `Text.TrimRight` | app/models/boss.py:38 | the right half of `strip`: the result is no longer than the input and does not end with whitespace |
| `Text.TrimRightShape` | app/models/boss.py:38 | the right half of `strip` keeps a prefix of the input and drops only whitespace |
| `Text.StripIdempotent` | app/models/boss.py:38 | stripping twice is stripping once |
| `Text.StripKeepsStripped` | app/models/boss.py:38 | a text without outer whitespace is left unchanged by `strip` |
| `Text.Lower` | app/models/boss.py:41 | `str.lower()` on ASCII letters: same length, and each character is lower-cased in place |
| `Text.LowerKeepsLowercase` | app/models/boss.py:41 | a text without capitals is unchanged by `lower` |
| `Text.RemoveChar` | app/models/boss.py:48 | `replace(c, "")`: the result holds exactly the characters of the input other than `c` |
| `Text.Digits` | app/models/boss.py:51-53 | `"".join(re.findall(r"\d+", s))`: the result is all digits and no longer than the input |
| `Text.DigitsIgnoreRemovedChar` | app/models/boss.py:48-51 | deleting a character that is not a digit does not change the digits found |
| `Text.DigitsConcat` | app/models/boss.py:51 | the digits of a concatenation are the concatenated digits |
| `Text.DigitsOfStrip` | app/models/boss.py:45 | stripping neither loses nor adds a digit |
| `Text.DecimalRoundTrip` | app/models/boss.py:53 | `int(str(n)) == n` for every non-negative `n` |
| `Text.IntToDecimal` | app/services/tibiawiki_client.py:186 | `str(pageid)`: a digit string for a non-negative id, a minus sign and digits for a negative one |
| `Text.RemoveParens` | app/models/boss.py:45 | `re.sub(r"\([^)]*\)", "", s)` never makes the text longer |
| `Text.RemoveParensNoOpen` | app/models/boss.py:45 | without an opening parenthesis nothing is removed |
| `Text.RemoveParensGroup` | app/models/boss.py:45 | a parenthetical group with no `)` inside is deleted, whatever follows |
| `Text.RemoveParensPlainPrefix` | app/models/boss.py:45 | text before the first `(` is kept as it is |
| `Text.Split` | app/models/boss.py:95 | `s.split(sep)` always gives at least one piece, and no piece holds the separator |
| `Text.SplitJoin` | app/models/boss.py:95 | `sep.join(parts).split(sep) == parts` when no part holds the separator |
| `Text.ContainsIffOccurs` | app/services/wikitext_parser.py:89 | `sub in s` holds exactly when `sub` occurs at some index of `s` |
| `BossModel.SanitizeHp` | app/models/boss.py:18-55 | `None` gives None and an `int` is returned unchanged; a string whose stripped, lower-cased form is `???`, `variable`, `unknown`, `n/a` or empty gives None; a number read from a string is never negative; a list or any other type gives None |
| `BossModel.SanitizeHpReadsDigitsOutsideParens` | app/models/boss.py:44-55 | for a non-sentinel string, the result is the decimal value of the digits outside parenthetical groups, concatenated, or None exactly when there is no such digit |
| `BossModel.SanitizeHpRoundTrip` | app/models/boss.py:36-53 | writing a count in decimal and sanitising it gives the count back |
| `BossModel.SanitizeHpIgnoresSeparatorAndNote` | app/models/boss.py:24-28 | the documented example shape `"<a>,<b> (<note>)"`, e.g. `"50,000 (estimated)"`, reads as the number of the digits of `a` followed by those of `b` |
| `BossModel.SanitizeHpUnknownExample` | app/models/boss.py:26 | `"???"` gives None |
| `BossModel.SanitizeExp` | app/models/boss.py:57-65 | `sanitize_exp` equals `sanitize_hp` on every input |
| `BossModel.CleanItems` | app/models/boss.py:82 | `[item.strip() for item in v if item.strip()]`: every item is non-empty and stripped, and there are no more items than were given |
| `BossModel.CleanItemsAppend` | app/models/boss.py:82 | the comprehension works item by item, in order: cleaning a concatenation concatenates the cleaned parts, and one item gives `[item.strip()]` when that is not empty and `[]` otherwise |
| `BossModel.CleanItemsKeepsItem` | app/models/boss.py:82 | every given item whose stripped text is not empty is in the result, stripped |
| `BossModel.CleanItemsFromInput` | app/models/boss.py:82 | every item of the result is the stripped text of a given item |
| `BossModel.SanitizeWalksThrough` | app/models/boss.py:67-99 | every item is non-empty and stripped; `None`, an `int` or any other type gives `[]`; a string whose stripped, lower-cased form is `none`, `n/a`, `???` or empty gives `[]` |
| `BossModel.SanitizedTextHasNoComma` | app/models/boss.py:91-95 | items parsed from a string never hold a comma |
| `BossModel.SanitizeWalksThroughIdempotent` | app/models/boss.py:81-82 | feeding the output list back in returns the same list |
| `BossModel.CleanItemsKeepsCleanList` | app/models/boss.py:82 | a list of non-empty stripped items is kept as it is, in order |
| `BossModel.SanitizeWalksThroughRoundTrip` | app/models/boss.py:84-97 | joining clean items with `", "` and sanitising the text gives the items back, unless the joined text is itself a sentinel word |
| `BossModel.SanitizeWalksThroughIgnoresNote` | app/models/boss.py:75 | the documented shape `"Fire, Energy (partial)"`: a trailing note is dropped and the items come back |
| `BossModel.SanitizeWalksThroughSentinelExample` | app/models/boss.py:76 | `"None"` gives `[]` |
| `BossModel.SanitizeImmunities` | app/models/boss.py:101-109 | `sanitize_immunities` equals `sanitize_walks_through` on every input |
| `WikitextParser.InfoboxTestIsContainment` | app/services/wikitext_parser.py:80-90 | the exact comparison with `infobox boss` followed by the containment test accepts exactly the names that contain both words |
| `WikitextParser.TestTemplateName` | app/services/wikitext_parser.py:82-90 | the two tests of the loop body, run in order, decide `IsInfoboxBoss` |
| `WikitextParser.FindInfoboxBoss` | app/services/wikitext_parser.py:78-92 | the search returns the first template, in document order, that passes the test, or nothing exactly when none does |
| `WikitextParser.FirstInfoboxIsFirst` | app/services/wikitext_parser.py:78-92 | the specification of the search picks the first passing template, and finds nothing exactly when no template passes |
| `WikitextParser.FirstInfoboxUnique` | app/services/wikitext_parser.py:78-92 | the loop's answer and the recursive specification agree |
| `WikitextParser.FirstTrue` | app/services/wikitext_parser.py:80-92 | the position found holds `true` with only `false` before it, and None exactly when all are `false` |
| `WikitextParser.PositionalName` | app/services/wikitext_parser.py:134-140 | the name is the value of the first positional parameter (stripped name empty or `"1"`), or `""` when there is none |
| `WikitextParser.FindPositionalName` | app/services/wikitext_parser.py:132-140 | the first loop, which stops at the first positional parameter, computes `PositionalName` |
| `WikitextParser.AssignReadings` | app/services/wikitext_parser.py:143-162 | the second loop applies every parameter in order |
| `WikitextParser.ExtractTemplateData` | app/services/wikitext_parser.py:95-168 | `_extract_template_data` as written computes `TemplateData` |
| `WikitextParser.ScalarFieldsTakeLastValue` | app/services/wikitext_parser.py:150-155 | `name`, `hp` and `exp` are last-one-wins over the parameters mapped to them, and untouched when none is |
| `WikitextParser.AssignScalarFields` | app/services/wikitext_parser.py:147-155 | one parameter sets a scalar field exactly when its stripped, lower-cased name maps to that field |
| `WikitextParser.ListFieldJoinsValues` | app/services/wikitext_parser.py:156-162 | a list field holds its values joined in order with `", "`, with leading empty values replaced by later ones, and stays the initial `[]` when no parameter fills it |
| `WikitextParser.AppendListOf` | app/services/wikitext_parser.py:158-162 | one more value extends the joined text, or replaces a falsy one |
| `WikitextParser.TemplateDataName` | app/services/wikitext_parser.py:106-166 | name precedence: a non-empty last `name` parameter wins; else a non-empty `boss_name`; else `""` when a `name` parameter was given; else the first positional parameter |
| `WikitextParser.Parse` | app/services/wikitext_parser.py:25-65 | `parse` as written computes `ParseWikitext` |
| `WikitextParser.ParseOutcome` | app/services/wikitext_parser.py:39-65 | parsing fails exactly in three ways: empty wikitext, markup the library rejects, or no infobox; otherwise the record is built from the first infobox template |
| `WikitextParser.ParsedNumbers` | app/services/wikitext_parser.py:106-155 | the record's `hp` and `exp` are `sanitize_hp` of the last raw value given, or None when none is |
| `WikitextParser.ParsedWalksThrough` | app/services/wikitext_parser.py:106-162 | repeated `walks_through` parameters holding one clean item each come out as exactly those items, in order |
| `WikitextParser.ParsedImmunities` | app/services/wikitext_parser.py:106-162 | the same for immunities |
| `WikitextParser.UnfilledListsAreEmpty` | app/services/wikitext_parser.py:110-111 | a list field no parameter fills is `[]` in the record |
| `ImageResolver.ChunksCoverItems` | app/services/image_resolver.py:56-67 | concatenating the chunks gives the items back |
| `ImageResolver.ChunkSizes` | app/services/image_resolver.py:56-67 | each chunk holds 1 to `n` items, and all but the last hold exactly `n` |
| `ImageResolver.ChunkCount` | app/services/image_resolver.py:56-67 | the number of chunks `c` satisfies `(c - 1) * n < len(items) <= c * n`, i.e. it is `ceil(len(items) / n)` |
| `ImageResolver.Dedupe` | app/services/image_resolver.py:172 | `list(dict.fromkeys(names))` is no longer than its input |
| `ImageResolver.DedupeKeepsElements` | app/services/image_resolver.py:172 | deduplication keeps exactly the input's names, each once |
| `ImageResolver.DedupePrefix` | app/services/image_resolver.py:172 | first occurrences keep their order: the deduplication of a prefix is a prefix of the deduplication |
| `ImageResolver.DedupeOfDistinct` | app/services/image_resolver.py:172 | distinct names are left as they are |
| `ImageResolver.DedupeOfCopies` | app/services/image_resolver.py:172 | three copies of one name leave one name |
| `ImageResolver.PlaceholderFor` | app/services/image_resolver.py:135-144 | a failed batch maps exactly its own names, all to the placeholder |
| `ImageResolver.ResolveBatch` | app/services/image_resolver.py:69-146 | `_resolve_batch` as written computes `BatchResult`, and sends a query exactly when the batch is non-empty |
| `ImageResolver.RecordPagesValues` | app/services/image_resolver.py:110-133 | the keys of a reply's map are page titles, and each value is what a page with that title gives: its first `imageinfo` URL, or the placeholder |
| `ImageResolver.PageTitleIsKey` | app/services/image_resolver.py:110-133 | the title of every page that is recorded (not missing, or missing with a title) is a key of the reply's map, and its value is what the last recorded page with that title gives |
| `ImageResolver.PlaceholderPages` | app/services/image_resolver.py:112-133 | a missing page with a title, a page with an empty `imageinfo` and a page with no URL all map to the placeholder |
| `ImageResolver.FailedBatchIsPlaceholder` | app/services/image_resolver.py:135-144 | a failed batch gives exactly its names the placeholder |
| `ImageResolver.ResolveImages` | app/services/image_resolver.py:148-201 | `resolve_images` as written computes `ResolvedImages`, with one query per batch |
| `ImageResolver.FillMissingCovers` | app/services/image_resolver.py:194-197 | the final loop keeps every resolved value, adds every name and gives the added names the placeholder |
| `ImageResolver.EveryNameResolved` | app/services/image_resolver.py:194-197 | every requested file name is a key of the result |
| `ImageResolver.MergedValues` | app/services/image_resolver.py:182-192 | every merged value is the placeholder or a URL some reply gives to that key |
| `ImageResolver.LaterBatchWins` | app/services/image_resolver.py:182-192 | `all_results.update` lets the later batch win: a key has the value of the last batch whose result holds it |
| `ImageResolver.MergedKeysComeFromBatches` | app/services/image_resolver.py:182-192 | a key that no batch result holds is not merged |
| `ImageResolver.BatchValueReachesResult` | app/services/image_resolver.py:182-197 | the value the last batch holding a key gives it is the value in the result of `resolve_images`; the final loop does not override it |
| `ImageResolver.PageUrlReachesResult` | app/services/image_resolver.py:110-197 | a page of a reply gives its title its URL (or the placeholder when missing) in the result, when it is the last recorded page with that title in its reply and no later batch holds the title |
| `ImageResolver.UnresolvedNameGetsPlaceholder` | app/services/image_resolver.py:182-197 | a requested name that no batch result holds is mapped to the placeholder |
| `ImageResolver.ResolvedValues` | app/services/image_resolver.py:148-201 | every value of the result is the placeholder or an image URL some reply gives to that key |
| `ImageResolver.NoNamesNoRequest` | app/services/image_resolver.py:168-169 | no names give no query and an empty map |
| `ImageResolver.RequestCount` | app/services/image_resolver.py:172-186 | one query per 50 distinct names, rounded up |
| `ImageResolver.FiftyFiveNamesTwoRequests` | app/services/image_resolver.py:172-186 | 55 distinct names take two queries |
| `ImageResolver.CopiesOneRequest` | app/services/image_resolver.py:172-186 | three copies of one name take one query |
| `TibiaWikiClient.RequestWithBackoff` | app/services/tibiawiki_client.py:56-96 | `_request_with_backoff` as written computes `BackoffRun`: result, sleeps and attempts |
| `TibiaWikiClient.RetryFromShape` | app/services/tibiawiki_client.py:74-96 | between one and `MAX_RETRIES` attempts, a sleep between each two, every attempt but the last got a 429, the last attempt's outcome is the result, and a 429 is raised only on the last allowed attempt |
| `TibiaWikiClient.BackoffRunShape` | app/services/tibiawiki_client.py:72-96 | a call makes 1 to 3 attempts and retries only after a 429; it returns a response exactly when the last attempt responded |
| `TibiaWikiClient.OtherErrorsNotRetried` | app/services/tibiawiki_client.py:92-96 | another HTTP status, or a transport error, ends the call on the attempt where it occurs |
| `TibiaWikiClient.SleepsArePrefixOfOneTwo` | app/services/tibiawiki_client.py:72-88 | with `INITIAL_BACKOFF = 1` the sleeps are a prefix of `[1, 2]` |
| `TibiaWikiClient.ThreeRateLimits` | app/services/tibiawiki_client.py:81-91 | three 429s take three attempts and sleeps of 1 and 2 seconds, and the 429 is raised with no sleep after it |
| `TibiaWikiClient.TokensFrom` | app/services/tibiawiki_client.py:121-139 | no more requests than replies, and the first request carries the initial token |
| `TibiaWikiClient.GetAllBosses` | app/services/tibiawiki_client.py:98-142 | `get_all_bosses` as written computes `Listing`, and sends exactly the tokens `TokensSent` gives |
| `TibiaWikiClient.ListingStopsAtFirstEnd` | app/services/tibiawiki_client.py:107-139 | requests continue exactly while replies carry a non-empty `cmcontinue`; each later request carries the previous reply's token; the listing fails exactly when the last reply read is an error, and otherwise concatenates the members in request order |
| `TibiaWikiClient.WikitextQuery` | app/services/tibiawiki_client.py:160-174 | `ValueError` exactly when both `pageid` and `title` are falsy; a truthy `pageid` takes priority; a query by title carries the non-empty title |
| `TibiaWikiClient.FirstAnswer` | app/services/tibiawiki_client.py:185-193 | the page found is the first that answers the query (key `str(pageid)`, or equal title), and no earlier page answers |
| `TibiaWikiClient.GetBossWikitext` | app/services/tibiawiki_client.py:144-210 | `get_boss_wikitext` as written computes `BossWikitext`, whose outcome in every case is stated by the four lemmas below |
| `TibiaWikiClient.FirstAnswerGivesWikitext` | app/services/tibiawiki_client.py:176-210 | when some page answers the query, the result is the first answering page's first revision content, or None when that page is missing or has no revision |
| `TibiaWikiClient.NoAnswerGivesNone` | app/services/tibiawiki_client.py:176-197 | when no page answers the query, the result is None |
| `TibiaWikiClient.WikitextErrors` | app/services/tibiawiki_client.py:160-182 | `ValueError` exactly when both arguments are falsy; otherwise an error exactly when the request fails, and then it is that request's error |
| `TibiaWikiClient.WikitextComesFromFirstAnswer` | app/services/tibiawiki_client.py:185-210 | wikitext is returned only from the first answering page, when it is not missing and has a revision; it is the first revision's content |
| `TibiaWikiClient.PageIdTakesPriority` | app/services/tibiawiki_client.py:171-174 | with a page id, the title plays no part |
| `TibiaWikiClient.PageKeysDistinct` | app/services/tibiawiki_client.py:186 | distinct page ids are looked up under distinct keys |
| `SystemJobs.EnsureDoc` | app/db/system_jobs.py:31-47 | `ensure` always leaves a document, and never changes an existing one |
| `SystemJobs.AcquireDoc` | app/db/system_jobs.py:49-69 | acquire succeeds exactly when the document exists and is idle; it then sets `running` and `locked_at = now`, keeping `last_run`; a failed acquire changes nothing |
| `SystemJobs.ReleaseDoc` | app/db/system_jobs.py:71-91 | release sets `idle`, `last_run = now` and `locked_at = None` whatever the status, and changes nothing when there is no document |
| `SystemJobs.ScraperLock.constructor` | app/db/system_jobs.py:27-29 | the repository works on the collection as it is: the lock document is whatever the collection holds, or absent |
| `SystemJobs.ScraperLock.Ensure` | app/db/system_jobs.py:31-47 | the new document is `EnsureDoc` of the old |
| `SystemJobs.ScraperLock.Acquire` | app/db/system_jobs.py:49-69 | the result and the new document are `AcquireDoc` of the old |
| `SystemJobs.ScraperLock.Release` | app/db/system_jobs.py:71-91 | the new document is `ReleaseDoc` of the old |
| `SystemJobs.StepKeepsConsistent` | app/db/system_jobs.py:37-84 | every call keeps "idle exactly when `locked_at` is None" |
| `SystemJobs.ReplayKeepsConsistent` | app/db/system_jobs.py:31-91 | any sequence of ensure/acquire/release keeps that invariant |
| `SystemJobs.HeldLockExcludes` | app/db/system_jobs.py:56-69 | mutual exclusion: while the lock is held and no release comes, the document stays as it is and every acquire fails |
| `SystemJobs.EnsureIdempotent` | app/db/system_jobs.py:37-47 | `ensure` is idempotent |
| `SystemJobs.ReleaseThenAcquire` | app/db/system_jobs.py:71-91 | after `ensure`, a release followed by an acquire always succeeds |
| `SystemJobs.LockScenario` | tests/test_system_jobs_lock.py:28-44 | ensure, then acquire, acquire, release, acquire: the first acquire succeeds exactly when the collection holds no lock document or an idle one (the test's fresh collection holds none), the second fails and the last succeeds |
| `DeadLetterLogger.TruncateSnippet` | app/utils/dead_letter_logger.py:55-72 | the result has at most `max_length + 3` characters; a text within the limit is returned unchanged (in particular `""`); a longer text keeps its first `max_length` characters and gains `...` |
| `DeadLetterLogger.DefaultTruncation` | app/utils/dead_letter_logger.py:55-72 | with the default limit a snippet has at most 503 characters, and a longer text is cut to exactly 503, ending in `...` |
| `DeadLetterLogger.ParsingSnippet` | app/utils/dead_letter_logger.py:94 | no raw data gives `""`; raw data gives its truncation |
| `DeadLetterLogger.ImageSnippetNamesFile` | app/utils/dead_letter_logger.py:127 | the snippet is `Image filename: ` followed by the file name, or `unknown` when the name is absent or empty |
| `DeadLetterLogger.CountedLines` | app/utils/dead_letter_logger.py:150-151 | the lines counted are at most the lines of the file |
| `DeadLetterLogger.LoggedLinesCount` | app/utils/dead_letter_logger.py:98-151 | every entry the logger appends adds one to the count, whatever lines the file held before |
| `DeadLetterLogger.BlankLinesNotCounted` | app/utils/dead_letter_logger.py:151 | lines that are blank after `strip` are not counted |
| `DeadLetterLogger.DeadLetterLog.constructor` | app/utils/dead_letter_logger.py:21-33 | the logger works on the file as it is: its lines are whatever the file holds, or none when there is no file |
| `DeadLetterLogger.DeadLetterLog.LogParsingError` | app/utils/dead_letter_logger.py:74-106 | appends exactly one line, holding the entry, at the end, leaving the earlier lines unchanged; a failed write is swallowed and appends nothing |
| `DeadLetterLogger.DeadLetterLog.LogImageError` | app/utils/dead_letter_logger.py:108-137 | the same for an image error, with the image snippet |
| `DeadLetterLogger.DeadLetterLog.GetLogCount` | app/utils/dead_letter_logger.py:139-155 | the count is the number of lines that are not blank after `strip` (`CountedLines`), or 0 when the file cannot be read |
| `DeadLetterLogger.DeadLetterLog.ClearLogs` | app/utils/dead_letter_logger.py:157-163 | the log is empty after a successful deletion, and unchanged after a failed one |
| `DeadLetterLogger.CountScenario` | tests/test_dead_letter_logger.py:143-160 | the count is 0 on a new log, 2 after two logged errors, and 0 after clearing |
| `MainScraper.ProcessBossOutcome` | app/main_scraper.py:34-73 | `process_boss` yields a record exactly when the wikitext fetched by page id is present, non-empty and parses under the entry's title (default `"Unknown"`); the record is then the parsed one, and every error gives None |
| `MainScraper.NoPageIdNoRecord` | app/main_scraper.py:50-73 | an entry without a page id yields no record: the `ValueError` is caught |
| `MainScraper.ProcessAll` | app/main_scraper.py:99-104 | one task result per listing entry |
| `MainScraper.ProcessAllAt` | app/main_scraper.py:99-104 | the `i`-th result is that of the `i`-th entry |
| `MainScraper.NoTaskRaises` | app/main_scraper.py:68-73 | `process_boss` never raises |
| `MainScraper.KeepRecords` | app/main_scraper.py:107-112 | a record is kept exactly when some task produced it, and no more records than tasks are kept |
| `MainScraper.KeepRecordsAppend` | app/main_scraper.py:107-112 | the records are kept in task order |
| `MainScraper.AllRecordsKept` | app/main_scraper.py:107-110 | when every task produced a record, all are kept, in order |
| `MainScraper.FilterResults` | app/main_scraper.py:107-115 | the loop computes `KeepRecords`; `success_count` is the number kept and `failure_count = total - success_count` |
| `MainScraper.ProcessListing` | app/main_scraper.py:99-115 | `main` after the listing: the kept records of all the tasks, and the two counts adding up to the listing size |
| `MainScraper.KeptRecordsComeFromEntries` | app/main_scraper.py:99-112 | a record is kept exactly when some listing entry yields it |
| `ScraperJob.DeadLetters` | app/services/scraper_job.py:84-90 | no more dead letters than tasks |
| `ScraperJob.DeadLettersAreAnonymous` | app/services/scraper_job.py:84-90 | every dead letter of the job names `unknown`, has an empty snippet and carries the message of a task that raised |
| `ScraperJob.OneDeadLetterPerRaise` | app/services/scraper_job.py:84-90 | one dead letter per task that raised |
| `ScraperJob.DeadLettersCount` | app/services/scraper_job.py:84-90 | the job's dead letters raise the log's count by the number of tasks that raised |
| `ScraperJob.NoRaisedNoDeadLetters` | app/services/scraper_job.py:79-90 | tasks that do not raise write no dead letter |
| `ScraperJob.NoDeadLettersFromPipeline` | app/services/scraper_job.py:73-90 | the job's own tasks never raise, so the job writes no dead letter |
| `ScraperJob.FilterAndLog` | app/services/scraper_job.py:77-90 | the loop keeps the records in order and appends the dead letters of the tasks that raised, in order, to the log |
| `ScraperJob.SaveInBatches` | app/services/scraper_job.py:107-126 | the batch loop, stepping by `BATCH_SIZE` with the last slice shortened, saves exactly the chunks `_chunk_list` would give and adds up their counts, stopping at the first error |
| `ScraperJob.BatchStep` | app/services/scraper_job.py:108-109 | one turn of the batch loop: the slice at `i` is the first remaining chunk |
| `ScraperJob.BatchesCoverRecords` | app/services/scraper_job.py:108-111 | the batches hold every record exactly once, in order; all but the last have `BATCH_SIZE` records; there are `total_batches = (len + BATCH_SIZE - 1) // BATCH_SIZE` of them |
| `ScraperJob.SavedAtMostRecords` | app/services/scraper_job.py:107-126 | when no batch reports more saves than it holds, `total_saved` is at most the number of records |
| `ScraperJob.DoWork` | app/services/scraper_job.py:59-132 | the body of the `try` computes `WorkOutcome`, and logs the dead letters of the tasks |
| `ScraperJob.RunScraperJob` | app/services/scraper_job.py:28-143 | ensure comes before acquire; the job is skipped exactly when acquire fails, and then the lock and the log are untouched and there is no release; otherwise the work's outcome is returned and the lock is released once, whatever the work ended with |
| `ScraperJob.SkipsOnlyWhenHeld` | app/services/scraper_job.py:41-47 | the job skips exactly when another run holds the lock, and then leaves the document as it found it |
| `ScraperJob.RunLeavesLockIdle` | app/services/scraper_job.py:139-143 | a run that took the lock leaves it idle, without a lock time, and with the release time as last run |
| `ScraperJob.CompletedCounts` | app/services/scraper_job.py:92-93 | in a completed run, `success_count` is the records kept and `success_count + failure_count` is the number of bosses listed |

## Left out

- HTTP transport and asynchrony are not modelled; the model is sequential:
  - the `httpx` clients, including the `_client` fields, `_ensure_client`, `close` and the context managers;
  - `asyncio.sleep`: the sleeps are returned as a list of durations;
  - the semaphore of `MAX_CONCURRENT_REQUESTS` and `asyncio.gather`: the tasks are taken one by one in listing order, which gives the same ordered result list.
- JSON decoding of replies is not modelled. Replies come in already read: a missing key is given its default (`[]`, `""`, absent), and an unreadable body counts as a failed batch or request.
- The mwparserfromhell library is not modelled. The templates of a wikitext, in document order, come from the function `templatesOf`. Its own parse error is the `MarkupError` case of `parse`.
- `WikitextParser.IsInfoboxBoss` is stated as the containment test alone. `InfoboxTestIsContainment` proves that the exact comparison the source tries first accepts nothing more, and `TestTemplateName` runs both tests as written.
- `Text.Lower` lower-cases ASCII letters only, and `\d` is taken as the ASCII digits. Python's Unicode case mapping and Unicode decimal digits are not modelled.
- RemoveParens: its contract states only the length bound; what it deletes is stated by the lemmas `RemoveParensNoOpen`, `RemoveParensGroup` and `RemoveParensPlainPrefix`.
- The traceback summary (`_get_traceback_summary`) is not modelled. The error message is passed in as text.
- Timestamps (`datetime.now`) are parameters: `now`, `tAcquire`, `tRelease`, `tLog`.
- The log file's path, directory creation and JSON encoding are not modelled. The file is the sequence of its lines, each either an entry the logger wrote or a line it already held. Whether a write, a read or a deletion succeeds is a boolean parameter. A file whose last line lacks its newline, so that the next entry would be glued to it, is not modelled.
- DeadLetterLogger.TruncateSnippet: a negative `max_length` is not modelled; the parameter is a `nat` (every caller uses the default 500).
- CleanItems: its contract states that the items are non-empty, stripped and no more than were given; which items are kept, and in what order, is stated by `CleanItemsAppend`, `CleanItemsKeepsItem` and `CleanItemsFromInput`.
- SanitizeWalksThrough: a list holding an element that is not a `str` makes `item.strip()` raise `AttributeError` in the source, which `parse` would report as a parser error. The model's list holds strings only; the wikitext parser only produces lists of strings.
- SanitizeHp: reads a digit string of any length. CPython 3.11 and later refuse `int()` on a string of more than 4300 digits with a `ValueError`, which the validator does not catch. Such a record then fails validation, `parse` reports a parser error and `process_boss` gives None, where the model builds a record.
- SanitizeHp: a `bool` is an `int` to the validator, so it is modelled as `IntVal` 1 or 0; pydantic then stores it as that number.
- The floating-point success rate and the 90% threshold messages are not modelled; they only log.
- The JSON dump of `main` is not modelled, and neither is logging in general.
- `process_and_save_batch` and `BATCH_SIZE` are not defined in the shown `app/main_scraper.py`. They enter `run_scraper_job` as a save function from a batch to a count or an error, and a positive batch size. Image resolution inside that step is not part of this model.
- Exceptions raised by the job body are caught, logged and end the work. The model covers the two sources the body can see: a failed listing and a failed save, both giving `Aborted`. Other failures inside `process_and_save_batch` are part of the save function's error.
- `ImageResolver.ResolveImages` takes one reply per batch (`requires |responses| == |Batches(filenames)|`). A failed batch is modelled as one that fails before any page is recorded; the source would keep a page recorded before an exception in the middle of the loop.
- `TibiaWikiClient.GetAllBosses` requires its replies to end the listing, i.e. the last reply is an error or has no token. The loop of the source runs for as long as the server keeps sending tokens, which a finite model of the replies cannot express.
- `TibiaWikiClient.FirstAnswer` takes the first entry with key `str(pageid)`. The source reads a dictionary, whose keys are unique, so the two agree on every reply the server can send.
- Outcomes of attempts are `Responded`, `StatusError(code)` and `RequestFailed`. Other exception types raised by the transport are not modelled.
- Slug derivation, visuals, speed, resistances, `Infobox Creature` matching and redirect following are used by tests and scripts but are not in the shown code, so they are not modelled.
