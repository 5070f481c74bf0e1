/** `TibiaWikiClient`: the retry loop around every request, the paginated
    listing of `Category:Bosses`, and the page lookup that returns a boss
    page's wikitext. What the server answers is an input of the model: the
    outcome of each attempt, the replies to the listing requests, and the
    reply to a page query. */
module TibiaWikiClient {
  import opened Wrappers
  import opened Text

  /** `MAX_RETRIES`. */
  const MaxRetries: nat := 3

  /** `INITIAL_BACKOFF`, in seconds. */
  const InitialBackoff: nat := 1

  // ---------------------------------------------------------------------
  // `_request_with_backoff`
  // ---------------------------------------------------------------------

  /** What one attempt gets: a response that passes `raise_for_status`, an
      HTTP status error with its status code, or a transport error
      (`httpx.RequestError`). */
  datatype Outcome<R> = Responded(response: R) | StatusError(code: int) | RequestFailed

  /** The error a request ends with. */
  datatype RequestError = HttpError(code: int) | TransportError

  /** A whole call: its result, the sleeps it made, in seconds, and the
      number of attempts it sent. */
  datatype Run<R> = Run(result: Result<R, RequestError>, sleeps: seq<nat>, attempts: nat)

  function Pow2(k: nat): (p: nat)
    ensures p >= 1
  {
    if k == 0 then 1 else 2 * Pow2(k - 1)
  }

  /** The loop from attempt `attempt` on, with `backoff` as the current
      backoff; `send(k)` is what attempt `k` gets. */
  function RetryFrom<R>(send: nat -> Outcome<R>, attempt: nat, backoff: nat): Run<R>
    requires attempt < MaxRetries
    decreases MaxRetries - attempt
  {
    match send(attempt)
    case Responded(x) => Run(Ok(x), [], attempt + 1)
    case RequestFailed => Run(Err(TransportError), [], attempt + 1)
    case StatusError(c) =>
      if c == 429 && attempt < MaxRetries - 1 then
        var wait := backoff * Pow2(attempt);
        var rest := RetryFrom(send, attempt + 1, wait);
        Run(rest.result, [wait] + rest.sleeps, rest.attempts)
      else Run(Err(HttpError(c)), [], attempt + 1)
  }

  /** A call of `_request_with_backoff`. */
  function BackoffRun<R>(send: nat -> Outcome<R>): Run<R> {
    RetryFrom(send, 0, InitialBackoff)
  }

  /** `_request_with_backoff`, as the source runs it. */
  method RequestWithBackoff<R>(send: nat -> Outcome<R>)
    returns (result: Result<R, RequestError>, sleeps: seq<nat>, attempts: nat)
    ensures Run(result, sleeps, attempts) == BackoffRun(send)
  {
    var backoff: nat := InitialBackoff;
    sleeps := [];
    result, attempts := Err(TransportError), 0;
    for attempt := 0 to MaxRetries
      invariant attempt < MaxRetries ==>
        var rest := RetryFrom(send, attempt, backoff);
        BackoffRun(send) == Run(rest.result, sleeps + rest.sleeps, rest.attempts)
      invariant attempt == MaxRetries ==> BackoffRun(send) == Run(result, sleeps, attempts)
    {
      match send(attempt) {
        case Responded(x) =>
          assert sleeps + [] == sleeps;
          return Ok(x), sleeps, attempt + 1;
        case RequestFailed =>
          assert sleeps + [] == sleeps;
          return Err(TransportError), sleeps, attempt + 1;
        case StatusError(c) =>
          if c != 429 {
            assert sleeps + [] == sleeps;
            return Err(HttpError(c)), sleeps, attempt + 1;
          }
          if attempt < MaxRetries - 1 {
            var wait: nat := backoff * Pow2(attempt);
            ghost var rest := RetryFrom(send, attempt + 1, wait);
            assert sleeps + ([wait] + rest.sleeps) == (sleeps + [wait]) + rest.sleeps;
            sleeps := sleeps + [wait];
            backoff := wait;
          } else {
            // The last 429 is raised: this is the last turn of the loop.
            assert sleeps + [] == sleeps;
            result, attempts := Err(HttpError(c)), attempt + 1;
          }
      }
    }
  }

  /** The shape of every call: between one and `MAX_RETRIES` attempts, one
      sleep between two attempts, every attempt but the last got a 429, and
      the last attempt's outcome decides the result; a 429 is raised only
      on the last allowed attempt. */
  lemma {:induction false} RetryFromShape<R>(send: nat -> Outcome<R>, attempt: nat, backoff: nat)
    requires attempt < MaxRetries
    ensures var run := RetryFrom(send, attempt, backoff);
      attempt < run.attempts <= MaxRetries &&
      |run.sleeps| == run.attempts - 1 - attempt &&
      (forall k :: attempt <= k < run.attempts - 1 ==> send(k) == StatusError(429)) &&
      match send(run.attempts - 1)
      case Responded(x) => run.result == Ok(x)
      case RequestFailed => run.result == Err(TransportError)
      case StatusError(c) =>
        run.result == Err(HttpError(c)) && (c == 429 ==> run.attempts == MaxRetries)
    decreases MaxRetries - attempt
  {
    match send(attempt)
    case Responded(_) =>
    case RequestFailed =>
    case StatusError(c) =>
      if c == 429 && attempt < MaxRetries - 1 {
        RetryFromShape(send, attempt + 1, backoff * Pow2(attempt));
      }
  }

  /** A call of `_request_with_backoff` makes at most `MAX_RETRIES`
      attempts, retries only after a 429, and returns the first response
      that is not an error. */
  lemma BackoffRunShape<R>(send: nat -> Outcome<R>)
    ensures var run := BackoffRun(send);
      1 <= run.attempts <= MaxRetries &&
      |run.sleeps| == run.attempts - 1 &&
      (forall k :: 0 <= k < run.attempts - 1 ==> send(k) == StatusError(429)) &&
      (run.result.Ok? <==> send(run.attempts - 1).Responded?) &&
      (run.result.Ok? ==> run.result == Ok(send(run.attempts - 1).response))
  {
    RetryFromShape(send, 0, InitialBackoff);
  }

  /** Another status than 429, or a transport error, ends the call on the
      attempt that gets it. */
  lemma OtherErrorsNotRetried<R>(send: nat -> Outcome<R>, k: nat)
    requires k < MaxRetries
    requires send(k).RequestFailed? || (send(k).StatusError? && send(k).code != 429)
    requires forall j :: 0 <= j < k ==> send(j) == StatusError(429)
    ensures BackoffRun(send).attempts == k + 1
    ensures BackoffRun(send).result ==
      (if send(k).RequestFailed? then Err(TransportError) else Err(HttpError(send(k).code)))
  {
    RetryFromShape(send, 0, InitialBackoff);
  }

  /** With an initial backoff of one second the sleeps are `[]`, `[1]` or
      `[1, 2]`: no sleep follows the last 429. */
  lemma SleepsArePrefixOfOneTwo<R>(send: nat -> Outcome<R>)
    ensures BackoffRun(send).sleeps <= [1, 2]
  {
    assert Pow2(0) == 1 && Pow2(1) == 2;
    var r1 := RetryFrom(send, 1, 1);
    var r2 := RetryFrom(send, 2, 2);
    assert r2.sleeps == [];
    assert r1.sleeps <= [2];
  }

  /** Three 429s in a row: three attempts, sleeps of one and two seconds,
      and the last 429 is raised. */
  lemma ThreeRateLimits<R>(send: nat -> Outcome<R>)
    requires send(0) == StatusError(429) && send(1) == StatusError(429) && send(2) == StatusError(429)
    ensures BackoffRun(send) == Run(Err(HttpError(429)), [1, 2], 3)
  {
    assert Pow2(0) == 1 && Pow2(1) == 2;
    assert RetryFrom(send, 2, 2) == Run(Err(HttpError(429)), [], 3);
    assert RetryFrom(send, 1, 1) == Run(Err(HttpError(429)), [2], 3);
  }

  // ---------------------------------------------------------------------
  // `get_all_bosses`
  // ---------------------------------------------------------------------

  /** One entry of `categorymembers`: its `pageid` and `title`, if
      present. */
  datatype CategoryMember = CategoryMember(pageid: Option<int>, title: Option<string>)

  /** The `continue` object of a reply and its `cmcontinue` token, if
      present. */
  datatype Continuation = Continuation(cmcontinue: Option<string>)

  /** A reply to one listing request: `query.categorymembers` (`[]` when
      absent) and the `continue` object, if present. */
  datatype ListingReply = ListingReply(members: seq<CategoryMember>, cont: Option<Continuation>)

  /** Another request follows exactly when the reply has a `continue`
      object whose `cmcontinue` is non-empty. */
  predicate Continues(reply: ListingReply) {
    reply.cont.Some? && reply.cont.value.cmcontinue.Some? && reply.cont.value.cmcontinue.value != ""
  }

  function Token(reply: ListingReply): string
    requires Continues(reply)
  {
    reply.cont.value.cmcontinue.value
  }

  /** The replies, in request order, end the listing: the last one is an
      error or has no token. */
  predicate EndsListing(replies: seq<Result<ListingReply, RequestError>>) {
    |replies| > 0 &&
    (replies[|replies| - 1].Err? || !Continues(replies[|replies| - 1].value))
  }

  /** What `get_all_bosses` returns, reading `replies` from the first:
      the members of each reply appended in order, or the first request
      error. */
  function Listing(replies: seq<Result<ListingReply, RequestError>>): Result<seq<CategoryMember>, RequestError>
    decreases |replies|
  {
    if |replies| == 0 then Ok([])
    else
      match replies[0]
      case Err(e) => Err(e)
      case Ok(reply) =>
        if !Continues(reply) then Ok(reply.members)
        else
          match Listing(replies[1..])
          case Err(e) => Err(e)
          case Ok(rest) => Ok(reply.members + rest)
  }

  /** The `cmcontinue` each request carries, from the request that gets
      `replies[0]` on, when that one carries `token`: a request is sent
      after a reply exactly when the reply has a token, and it carries that
      token. */
  function TokensFrom(replies: seq<Result<ListingReply, RequestError>>, token: Option<string>): (ts: seq<Option<string>>)
    ensures |ts| <= |replies| && (|replies| > 0 ==> |ts| >= 1 && ts[0] == token)
    decreases |replies|
  {
    if |replies| == 0 then []
    else if replies[0].Err? || !Continues(replies[0].value) then [token]
    else [token] + TokensFrom(replies[1..], Some(Token(replies[0].value)))
  }

  /** The `cmcontinue` of every request `get_all_bosses` sends, in order;
      the first carries none. */
  function TokensSent(replies: seq<Result<ListingReply, RequestError>>): seq<Option<string>> {
    TokensFrom(replies, None)
  }

  /** `get_all_bosses`, as the source runs it: `replies[i]` is the reply
      to the `i`-th request, and `tokens[i]` is the `cmcontinue` that
      request carried. */
  method GetAllBosses(replies: seq<Result<ListingReply, RequestError>>)
    returns (r: Result<seq<CategoryMember>, RequestError>, tokens: seq<Option<string>>)
    requires EndsListing(replies)
    ensures r == Listing(replies)
    ensures tokens == TokensSent(replies)
  {
    var allBosses: seq<CategoryMember> := [];
    var cmcontinue: Option<string> := None;
    tokens := [];
    var i := 0;
    assert replies[0..] == replies;
    if Listing(replies).Ok? {
      assert [] + Listing(replies).value == Listing(replies).value;
    }
    while true
      invariant 0 <= i < |replies|
      invariant Listing(replies) == Prepend(allBosses, Listing(replies[i..]))
      invariant TokensSent(replies) == tokens + TokensFrom(replies[i..], cmcontinue)
      decreases |replies| - i
    {
      assert replies[i..][0] == replies[i];
      tokens := tokens + [cmcontinue];
      match replies[i] {
        case Err(e) =>
          return Err(e), tokens;
        case Ok(reply) =>
          ghost var earlier := allBosses;
          allBosses := allBosses + reply.members;
          if !Continues(reply) {
            return Ok(allBosses), tokens;
          }
          assert replies[i..][1..] == replies[i + 1..];
          PrependTwice(earlier, reply.members, Listing(replies[i + 1..]));
          cmcontinue := Some(Token(reply));
          assert TokensSent(replies) == tokens + TokensFrom(replies[i + 1..], cmcontinue);
          i := i + 1;
      }
    }
  }

  /** `allBosses` in front of what the remaining replies give. */
  function Prepend(xs: seq<CategoryMember>, r: Result<seq<CategoryMember>, RequestError>): Result<seq<CategoryMember>, RequestError> {
    match r
    case Ok(v) => Ok(xs + v)
    case Err(e) => Err(e)
  }

  lemma PrependTwice(xs: seq<CategoryMember>, ys: seq<CategoryMember>, r: Result<seq<CategoryMember>, RequestError>)
    ensures Prepend(xs, Prepend(ys, r)) == Prepend(xs + ys, r)
  {
    if r.Ok? {
      assert xs + (ys + r.value) == (xs + ys) + r.value;
    }
  }

  /** The members of a run of successful replies, appended in order. */
  function AllMembers(replies: seq<Result<ListingReply, RequestError>>): seq<CategoryMember>
    requires forall j :: 0 <= j < |replies| ==> replies[j].Ok?
  {
    if |replies| == 0 then [] else replies[0].value.members + AllMembers(replies[1..])
  }

  /** One request per reply read: the replies read are those up to the
      first one that has an error or no token; every request after the
      first carries the token of the reply before it; and when no reply
      read failed, the listing is the concatenation of their members. */
  lemma {:induction false} ListingStopsAtFirstEnd(replies: seq<Result<ListingReply, RequestError>>, token: Option<string>)
    requires EndsListing(replies)
    ensures var n := |TokensFrom(replies, token)|;
      1 <= n <= |replies| &&
      (forall j :: 0 <= j < n - 1 ==> replies[j].Ok? && Continues(replies[j].value)) &&
      (replies[n - 1].Err? || !Continues(replies[n - 1].value))
    ensures forall j :: 1 <= j < |TokensFrom(replies, token)| ==>
      TokensFrom(replies, token)[j] == Some(Token(replies[j - 1].value))
    ensures Listing(replies).Err? <==> replies[|TokensFrom(replies, token)| - 1].Err?
    ensures Listing(replies).Ok? ==>
      Listing(replies) == Ok(AllMembers(replies[..|TokensFrom(replies, token)|]))
    decreases |replies|
  {
    var ts := TokensFrom(replies, token);
    if replies[0].Ok? && Continues(replies[0].value) {
      var rest := replies[1..];
      var next := Some(Token(replies[0].value));
      assert rest[|rest| - 1] == replies[|replies| - 1];
      ListingStopsAtFirstEnd(rest, next);
      var n := |TokensFrom(rest, next)|;
      assert ts == [token] + TokensFrom(rest, next);
      forall j | 0 <= j < n
        ensures replies[j + 1] == rest[j]
      {
      }
      if Listing(replies).Ok? {
        assert replies[..n + 1][1..] == rest[..n];
      }
    } else if replies[0].Ok? {
      assert replies[..1][1..] == [];
      assert replies[0].value.members + [] == replies[0].value.members;
    }
  }

  // ---------------------------------------------------------------------
  // `get_boss_wikitext`
  // ---------------------------------------------------------------------

  /** The first revision's `slots.main["*"]`, if present. */
  datatype Revision = Revision(content: Option<string>)

  /** One entry of `query.pages`: its `title` if present, whether it has
      the `missing` key, and its `revisions` (`[]` when absent). */
  datatype PageInfo = PageInfo(title: Option<string>, missing: bool, revisions: seq<Revision>)

  /** `query.pages`, in the order of the reply, as key and page. */
  datatype PageEntry = PageEntry(key: string, info: PageInfo)

  /** The page query sent: by `pageids` or by `titles`. */
  datatype Query = ByPageId(pageid: int) | ByTitle(title: string)

  datatype ClientError = InvalidArgument | RequestFailure(error: RequestError)

  /** The query `get_boss_wikitext` sends, or None when it raises
      `ValueError` because both arguments are falsy. */
  function WikitextQuery(pageid: Option<int>, title: Option<string>): (q: Option<Query>)
    ensures q.None? <==> (pageid.None? || pageid.value == 0) && (title.None? || title.value == "")
    ensures pageid.Some? && pageid.value != 0 ==> q == Some(ByPageId(pageid.value))
    ensures q.Some? && q.value.ByTitle? ==> title == Some(q.value.title) && q.value.title != ""
  {
    if pageid.Some? && pageid.value != 0 then Some(ByPageId(pageid.value))
    else if title.Some? && title.value != "" then Some(ByTitle(title.value))
    else None
  }

  /** Whether an entry is the one asked for: the key `str(pageid)` for a
      query by id, an equal `title` for a query by title. */
  predicate Answers(e: PageEntry, q: Query) {
    match q
    case ByPageId(id) => e.key == IntToDecimal(id)
    case ByTitle(t) => e.info.title == Some(t)
  }

  /** The index of the first entry that answers the query, or `|pages|`. */
  function FirstAnswer(pages: seq<PageEntry>, q: Query): (i: nat)
    ensures i <= |pages|
    ensures i < |pages| ==> Answers(pages[i], q)
    ensures forall j :: 0 <= j < i ==> !Answers(pages[j], q)
  {
    if |pages| == 0 then 0
    else if Answers(pages[0], q) then 0
    else 1 + FirstAnswer(pages[1..], q)
  }

  /** The wikitext of the page found: None when there is none, when it is
      missing, or when it has no revision. */
  function PageWikitext(pages: seq<PageEntry>, q: Query): Option<string> {
    var i := FirstAnswer(pages, q);
    if i == |pages| then None
    else
      var info := pages[i].info;
      if info.missing || |info.revisions| == 0 then None else info.revisions[0].content
  }

  /** What `get_boss_wikitext` returns; `fetch(q)` is the reply to query
      `q`. */
  function BossWikitext(pageid: Option<int>, title: Option<string>,
                        fetch: Query -> Result<seq<PageEntry>, RequestError>): Result<Option<string>, ClientError>
  {
    match WikitextQuery(pageid, title)
    case None => Err(InvalidArgument)
    case Some(q) =>
      match fetch(q)
      case Err(e) => Err(RequestFailure(e))
      case Ok(pages) => Ok(PageWikitext(pages, q))
  }

  /** `get_boss_wikitext`, as the source runs it. */
  method GetBossWikitext(pageid: Option<int>, title: Option<string>,
                         fetch: Query -> Result<seq<PageEntry>, RequestError>)
    returns (r: Result<Option<string>, ClientError>)
    ensures r == BossWikitext(pageid, title, fetch)
  {
    var q := WikitextQuery(pageid, title);
    if q.None? {
      return Err(InvalidArgument);
    }
    var reply := fetch(q.value);
    if reply.Err? {
      return Err(RequestFailure(reply.error));
    }
    var pages := reply.value;
    var pageData: Option<PageInfo> := None;
    if q.value.ByPageId? {
      var i := FirstAnswer(pages, q.value);
      if i < |pages| {
        pageData := Some(pages[i].info);
      }
    } else {
      var i := 0;
      while i < |pages|
        invariant 0 <= i <= |pages|
        invariant forall j :: 0 <= j < i ==> !Answers(pages[j], q.value)
      {
        if pages[i].info.title == Some(q.value.title) {
          pageData := Some(pages[i].info);
          break;
        }
        i := i + 1;
      }
      assert pageData.Some? ==> i == FirstAnswer(pages, q.value) && pageData == Some(pages[i].info);
      assert pageData.None? ==> FirstAnswer(pages, q.value) == |pages|;
    }
    if pageData.None? {
      return Ok(None);
    }
    if pageData.value.missing {
      return Ok(None);
    }
    if |pageData.value.revisions| == 0 {
      return Ok(None);
    }
    return Ok(pageData.value.revisions[0].content);
  }

  /** Wikitext is returned only from the first page that answers the
      query, is not missing and has a revision; it is that revision's
      content. */
  lemma WikitextComesFromFirstAnswer(pageid: Option<int>, title: Option<string>,
                                     fetch: Query -> Result<seq<PageEntry>, RequestError>, text: string)
    requires BossWikitext(pageid, title, fetch) == Ok(Some(text))
    ensures var q := WikitextQuery(pageid, title).value;
      var pages := fetch(q).value;
      exists i :: 0 <= i < |pages| && Answers(pages[i], q) &&
        (forall j :: 0 <= j < i ==> !Answers(pages[j], q)) &&
        !pages[i].info.missing && |pages[i].info.revisions| > 0 &&
        pages[i].info.revisions[0].content == Some(text)
  {
    var q := WikitextQuery(pageid, title).value;
    var i := FirstAnswer(fetch(q).value, q);
    assert i < |fetch(q).value|;
  }

  /** Entry `i` is the first entry of `pages` that answers `q`. */
  predicate IsFirstAnswer(pages: seq<PageEntry>, q: Query, i: int) {
    0 <= i < |pages| && Answers(pages[i], q) &&
    forall j :: 0 <= j < i ==> !Answers(pages[j], q)
  }

  /** When the reply has an entry that answers the query, the result is
      the first such entry's first revision content, or None when that
      page is missing or has no revision. */
  lemma FirstAnswerGivesWikitext(pageid: Option<int>, title: Option<string>,
                                 fetch: Query -> Result<seq<PageEntry>, RequestError>, i: nat)
    requires WikitextQuery(pageid, title).Some?
    requires var q := WikitextQuery(pageid, title).value;
      fetch(q).Ok? && IsFirstAnswer(fetch(q).value, q, i)
    ensures var info := fetch(WikitextQuery(pageid, title).value).value[i].info;
      BossWikitext(pageid, title, fetch) ==
        Ok(if info.missing || |info.revisions| == 0 then None else info.revisions[0].content)
  {
    var q := WikitextQuery(pageid, title).value;
    var f := FirstAnswer(fetch(q).value, q);
    assert f == i;
  }

  /** When no entry of the reply answers the query, the result is None. */
  lemma NoAnswerGivesNone(pageid: Option<int>, title: Option<string>,
                          fetch: Query -> Result<seq<PageEntry>, RequestError>)
    requires WikitextQuery(pageid, title).Some?
    requires var q := WikitextQuery(pageid, title).value;
      fetch(q).Ok? && forall j :: 0 <= j < |fetch(q).value| ==> !Answers(fetch(q).value[j], q)
    ensures BossWikitext(pageid, title, fetch) == Ok(None)
  {
    var q := WikitextQuery(pageid, title).value;
    var f := FirstAnswer(fetch(q).value, q);
    assert f == |fetch(q).value|;
  }

  /** The errors: `ValueError` exactly when both arguments are falsy, and
      otherwise an error exactly when the request fails, which is that
      request's error. */
  lemma WikitextErrors(pageid: Option<int>, title: Option<string>,
                       fetch: Query -> Result<seq<PageEntry>, RequestError>)
    ensures BossWikitext(pageid, title, fetch) == Err(InvalidArgument) <==> WikitextQuery(pageid, title).None?
    ensures WikitextQuery(pageid, title).Some? ==>
      var reply := fetch(WikitextQuery(pageid, title).value);
      (BossWikitext(pageid, title, fetch).Err? <==> reply.Err?) &&
      (reply.Err? ==> BossWikitext(pageid, title, fetch) == Err(RequestFailure(reply.error)))
  {
  }

  /** With both a page id and a title, the title plays no part. */
  lemma PageIdTakesPriority(pageid: int, title: Option<string>,
                            fetch: Query -> Result<seq<PageEntry>, RequestError>)
    requires pageid != 0
    ensures BossWikitext(Some(pageid), title, fetch) == BossWikitext(Some(pageid), None, fetch)
  {
  }

  /** Distinct page ids are looked up under distinct keys. */
  lemma PageKeysDistinct(a: int, b: int)
    requires a != b
    ensures IntToDecimal(a) != IntToDecimal(b)
  {
    if a >= 0 && b >= 0 {
      DecimalRoundTrip(a);
      DecimalRoundTrip(b);
    } else if a < 0 && b < 0 {
      DecimalRoundTrip(-a);
      DecimalRoundTrip(-b);
      assert IntToDecimal(a)[1..] == NatToDecimal(-a);
      assert IntToDecimal(b)[1..] == NatToDecimal(-b);
    } else if a < 0 {
      assert IntToDecimal(a)[0] == '-' && IsDigit(IntToDecimal(b)[0]);
    } else {
      assert IntToDecimal(b)[0] == '-' && IsDigit(IntToDecimal(a)[0]);
    }
  }
}
