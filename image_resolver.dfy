/** `ImageResolverService`: file names are deduplicated, cut into batches of
    `BATCH_SIZE`, each batch is sent as one query, and every reply is turned
    into a map from page title to image URL. Each query's reply is an input
    of the model: one `BatchResponse` per batch sent. */
module ImageResolver {
  import opened Wrappers

  /** `BATCH_SIZE`. */
  const BatchSize: nat := 50

  /** `PLACEHOLDER_URL`. */
  const PlaceholderUrl: string := "static/placeholder_boss.png"

  // ---------------------------------------------------------------------
  // `_chunk_list`
  // ---------------------------------------------------------------------

  /** `_chunk_list(items, n)`: `items[i:i+n]` for `i` in
      `range(0, len(items), n)`. */
  function ChunkList<T>(items: seq<T>, n: nat): (chunks: seq<seq<T>>)
    requires n > 0
    decreases |items|
  {
    if |items| == 0 then []
    else if |items| <= n then [items]
    else [items[..n]] + ChunkList(items[n..], n)
  }

  /** The chunks glued back together, in order. */
  function Flatten<T>(chunks: seq<seq<T>>): seq<T> {
    if |chunks| == 0 then [] else chunks[0] + Flatten(chunks[1..])
  }

  /** Concatenating the chunks gives the items back. */
  lemma {:induction false} ChunksCoverItems<T>(items: seq<T>, n: nat)
    requires n > 0
    ensures Flatten(ChunkList(items, n)) == items
    decreases |items|
  {
    if |items| > n {
      ChunksCoverItems(items[n..], n);
      assert ChunkList(items, n)[1..] == ChunkList(items[n..], n);
      assert items == items[..n] + items[n..];
    } else if |items| > 0 {
      assert ChunkList(items, n)[1..] == [];
    }
  }

  /** Every chunk holds between 1 and `n` items, and all but the last hold
      exactly `n`. */
  lemma {:induction false} ChunkSizes<T>(items: seq<T>, n: nat)
    requires n > 0
    ensures forall k :: 0 <= k < |ChunkList(items, n)| ==> 0 < |ChunkList(items, n)[k]| <= n
    ensures forall k :: 0 <= k < |ChunkList(items, n)| - 1 ==> |ChunkList(items, n)[k]| == n
    decreases |items|
  {
    if |items| > n {
      var rest := ChunkList(items[n..], n);
      ChunkSizes(items[n..], n);
      var cs := ChunkList(items, n);
      assert cs == [items[..n]] + rest;
      forall k | 0 <= k < |cs|
        ensures 0 < |cs[k]| <= n && (k < |cs| - 1 ==> |cs[k]| == n)
      {
        if k > 0 {
          assert cs[k] == rest[k - 1];
        }
      }
    }
  }

  /** There are `ceil(len(items) / n)` chunks: `n` times one chunk fewer
      falls short of the number of items, and `n` times their number
      reaches it. */
  lemma {:induction false} ChunkCount<T>(items: seq<T>, n: nat)
    requires n > 0
    ensures (|ChunkList(items, n)| - 1) * n < |items| <= |ChunkList(items, n)| * n
    decreases |items|
  {
    if |items| > n {
      ChunkCount(items[n..], n);
      var c := |ChunkList(items[n..], n)|;
      assert |ChunkList(items, n)| == c + 1;
      MulStep(c, n);
    }
  }

  lemma MulStep(c: int, n: int)
    ensures (c + 1) * n == c * n + n
    ensures (c + 1 - 1) * n == (c - 1) * n + n
  {
  }

  // ---------------------------------------------------------------------
  // Deduplication: `list(dict.fromkeys(filenames))`
  // ---------------------------------------------------------------------

  predicate NoDuplicates<T(==)>(xs: seq<T>) {
    forall i, j :: 0 <= i < j < |xs| ==> xs[i] != xs[j]
  }

  /** The first occurrence of every element, in order of first occurrence. */
  function Dedupe<T(==)>(xs: seq<T>): (r: seq<T>)
    ensures |r| <= |xs|
  {
    if |xs| == 0 then []
    else
      var d := Dedupe(xs[..|xs| - 1]);
      if xs[|xs| - 1] in d then d else d + [xs[|xs| - 1]]
  }

  /** Deduplication keeps exactly the elements of its input, each once. */
  lemma {:induction false} DedupeKeepsElements<T>(xs: seq<T>)
    ensures forall x :: x in Dedupe(xs) <==> x in xs
    ensures NoDuplicates(Dedupe(xs))
  {
    if |xs| > 0 {
      var init := xs[..|xs| - 1];
      DedupeKeepsElements(init);
      assert xs == init + [xs[|xs| - 1]];
    }
  }

  /** The first occurrences in a prefix come first, in the same order: the
      deduplication of a prefix is a prefix of the deduplication. */
  lemma {:induction false} DedupePrefix<T>(xs: seq<T>, k: nat)
    requires k <= |xs|
    ensures |Dedupe(xs[..k])| <= |Dedupe(xs)|
    ensures Dedupe(xs)[..|Dedupe(xs[..k])|] == Dedupe(xs[..k])
    decreases |xs|
  {
    if k < |xs| {
      var init := xs[..|xs| - 1];
      assert init[..k] == xs[..k];
      DedupePrefix(init, k);
    } else {
      assert xs[..k] == xs;
    }
  }

  /** Names that are already distinct are left as they are. */
  lemma {:induction false} DedupeOfDistinct<T>(xs: seq<T>)
    requires NoDuplicates(xs)
    ensures Dedupe(xs) == xs
  {
    if |xs| > 0 {
      var init := xs[..|xs| - 1];
      DedupeOfDistinct(init);
      assert xs[|xs| - 1] !in init by {
        forall i | 0 <= i < |init|
          ensures init[i] != xs[|xs| - 1]
        {
          assert init[i] == xs[i];
        }
      }
      assert xs == init + [xs[|xs| - 1]];
    }
  }

  /** Three copies of one name leave one name. */
  lemma DedupeOfCopies<T>(x: T)
    ensures Dedupe([x, x, x]) == [x]
  {
    assert [x][..0] == [];
    assert Dedupe([x]) == [x];
    assert [x, x][..1] == [x];
    assert Dedupe([x, x]) == [x];
    assert [x, x, x][..2] == [x, x];
  }

  // ---------------------------------------------------------------------
  // `_resolve_batch`
  // ---------------------------------------------------------------------

  /** One `imageinfo` entry: its `url`, if present. */
  datatype ImageInfo = ImageInfo(url: Option<string>)

  /** One entry of `query.pages`: whether it has the `missing` key, its
      `title` (`""` when absent) and its `imageinfo` list (`[]` when
      absent). */
  datatype PageRecord = PageRecord(missing: bool, title: string, imageinfo: seq<ImageInfo>)

  /** The reply to one batch query: an error (an HTTP error status, a
      transport failure or an unreadable body), or the pages in the order of
      `query.pages`. */
  datatype BatchResponse = Failure | Pages(pages: seq<PageRecord>)

  /** The URL recorded for a page that is not missing: the first
      `imageinfo` URL when it is there and non-empty, else the
      placeholder. */
  function PageUrl(p: PageRecord): string {
    if |p.imageinfo| > 0 && p.imageinfo[0].url.Some? && p.imageinfo[0].url.value != ""
    then p.imageinfo[0].url.value
    else PlaceholderUrl
  }

  /** One turn of the loop over the pages. */
  function RecordPage(m: map<string, string>, p: PageRecord): map<string, string> {
    if p.missing then
      (if p.title != "" then m[p.title := PlaceholderUrl] else m)
    else m[p.title := PageUrl(p)]
  }

  /** The loop over the pages, in order. */
  function RecordPages(pages: seq<PageRecord>): map<string, string> {
    if |pages| == 0 then map[] else RecordPage(RecordPages(pages[..|pages| - 1]), pages[|pages| - 1])
  }

  /** Every file name of the batch mapped to the placeholder. */
  function PlaceholderFor(filenames: seq<string>): (m: map<string, string>)
    ensures m.Keys == set f | f in filenames
    ensures forall f :: f in m ==> m[f] == PlaceholderUrl
  {
    map f | f in filenames :: PlaceholderUrl
  }

  /** What `_resolve_batch` returns for a batch and the reply to it. */
  function BatchResult(filenames: seq<string>, response: BatchResponse): map<string, string> {
    if filenames == [] then map[]
    else
      match response
      case Failure => PlaceholderFor(filenames)
      case Pages(pages) => RecordPages(pages)
  }

  /** `_resolve_batch`, as the source runs it. An empty batch is answered
      at once and sends no query (`sent` is false). */
  method ResolveBatch(filenames: seq<string>, response: BatchResponse)
    returns (result: map<string, string>, sent: bool)
    ensures result == BatchResult(filenames, response)
    ensures sent <==> filenames != []
  {
    if filenames == [] {
      return map[], false;
    }
    sent := true;
    result := map[];
    match response {
      case Failure =>
        for i := 0 to |filenames|
          invariant result == PlaceholderFor(filenames[..i])
        {
          assert filenames[..i + 1] == filenames[..i] + [filenames[i]];
          result := result[filenames[i] := PlaceholderUrl];
        }
        assert filenames[..|filenames|] == filenames;
      case Pages(pages) =>
        for i := 0 to |pages|
          invariant result == RecordPages(pages[..i])
        {
          assert pages[..i + 1][..i] == pages[..i];
          var page := pages[i];
          if page.missing {
            if page.title != "" {
              result := result[page.title := PlaceholderUrl];
            }
          } else if |page.imageinfo| > 0 {
            var url := page.imageinfo[0].url;
            if url.Some? && url.value != "" {
              result := result[page.title := url.value];
            } else {
              result := result[page.title := PlaceholderUrl];
            }
          } else {
            result := result[page.title := PlaceholderUrl];
          }
        }
        assert pages[..|pages|] == pages;
    }
  }

  /** Some page of the reply carries `title` and gives it `url`. */
  predicate PageGives(pages: seq<PageRecord>, title: string, url: string) {
    exists j :: 0 <= j < |pages| && pages[j].title == title &&
      url == (if pages[j].missing then PlaceholderUrl else PageUrl(pages[j]))
  }

  /** The keys of a reply's result are the titles of its pages, and each
      value is the URL the last page with that title gives, or the
      placeholder. */
  lemma {:induction false} RecordPagesValues(pages: seq<PageRecord>)
    ensures forall t :: t in RecordPages(pages) ==> PageGives(pages, t, RecordPages(pages)[t])
  {
    if |pages| > 0 {
      var init := pages[..|pages| - 1];
      var p := pages[|pages| - 1];
      RecordPagesValues(init);
      var m := RecordPages(init);
      forall t | t in RecordPages(pages)
        ensures PageGives(pages, t, RecordPages(pages)[t])
      {
        if t == p.title && (!p.missing || p.title != "") {
          assert pages[|pages| - 1] == p;
        } else {
          assert t in m;
          var j :| 0 <= j < |init| && init[j].title == t &&
            m[t] == (if init[j].missing then PlaceholderUrl else PageUrl(init[j]));
          assert pages[j] == init[j];
        }
      }
    }
  }

  /** Whether a page puts its title into the result: a page that is not
      missing always does, a missing page only when it has a title. */
  predicate Recorded(p: PageRecord) {
    !p.missing || p.title != ""
  }

  /** The value a recorded page gives its title. */
  function PageValue(p: PageRecord): string {
    if p.missing then PlaceholderUrl else PageUrl(p)
  }

  /** Page `j` is recorded, and no later page with its title is. */
  predicate LastWithTitle(pages: seq<PageRecord>, j: int) {
    0 <= j < |pages| && Recorded(pages[j]) &&
    forall l :: j < l < |pages| && pages[l].title == pages[j].title ==> !Recorded(pages[l])
  }

  /** The title of every recorded page is a key of the reply's result, and
      its value is what the last recorded page with that title gives. */
  lemma {:induction false} PageTitleIsKey(pages: seq<PageRecord>, j: nat)
    requires LastWithTitle(pages, j)
    ensures pages[j].title in RecordPages(pages)
    ensures RecordPages(pages)[pages[j].title] == PageValue(pages[j])
  {
    var n := |pages| - 1;
    var init := pages[..n];
    if j < n {
      assert LastWithTitle(init, j) by {
        forall l | j < l < |init| && init[l].title == init[j].title
          ensures !Recorded(init[l])
        {
          assert init[l] == pages[l] && init[j] == pages[j];
        }
      }
      PageTitleIsKey(init, j);
      assert pages[n].title != pages[j].title || !Recorded(pages[n]);
    }
  }

  /** A missing page with a title, a page without `imageinfo` and a page
      whose first `imageinfo` has no URL all give the placeholder. */
  lemma PlaceholderPages(m: map<string, string>, p: PageRecord)
    requires (p.missing && p.title != "") || (!p.missing && |p.imageinfo| == 0) ||
             (!p.missing && |p.imageinfo| > 0 && p.imageinfo[0].url.None?)
    ensures p.title in RecordPage(m, p) && RecordPage(m, p)[p.title] == PlaceholderUrl
  {
  }

  /** A failing batch gives exactly its own names the placeholder. */
  lemma FailedBatchIsPlaceholder(filenames: seq<string>)
    requires filenames != []
    ensures BatchResult(filenames, Failure).Keys == set f | f in filenames
    ensures forall f :: f in filenames ==> BatchResult(filenames, Failure)[f] == PlaceholderUrl
  {
  }

  // ---------------------------------------------------------------------
  // `resolve_images`
  // ---------------------------------------------------------------------

  /** The batches `resolve_images` sends for a list of file names. */
  function Batches(filenames: seq<string>): seq<seq<string>> {
    ChunkList(Dedupe(filenames), BatchSize)
  }

  /** `all_results` after the loop over the batches: each batch's result
      merged in, a later batch winning over an earlier one. */
  function MergeBatches(batches: seq<seq<string>>, responses: seq<BatchResponse>): map<string, string>
    requires |responses| == |batches|
  {
    if |batches| == 0 then map[]
    else
      var n := |batches| - 1;
      MergeBatches(batches[..n], responses[..n]) + BatchResult(batches[n], responses[n])
  }

  /** The final loop: every name not resolved gets the placeholder. */
  function FillMissing(m: map<string, string>, names: seq<string>): map<string, string> {
    if |names| == 0 then m
    else
      var f := FillMissing(m, names[..|names| - 1]);
      var x := names[|names| - 1];
      if x in f then f else f[x := PlaceholderUrl]
  }

  /** What `resolve_images` returns, given one reply per batch. */
  function ResolvedImages(filenames: seq<string>, responses: seq<BatchResponse>): map<string, string>
    requires |responses| == |Batches(filenames)|
  {
    if filenames == [] then map[]
    else FillMissing(MergeBatches(Batches(filenames), responses), Dedupe(filenames))
  }

  /** `resolve_images`, as the source runs it. `responses[i]` is the reply
      to the `i`-th query sent; `requests` counts the queries. */
  method ResolveImages(filenames: seq<string>, responses: seq<BatchResponse>)
    returns (result: map<string, string>, requests: nat)
    requires |responses| == |Batches(filenames)|
    ensures result == ResolvedImages(filenames, responses)
    ensures requests == |Batches(filenames)|
  {
    if filenames == [] {
      return map[], 0;
    }
    var unique := Dedupe(filenames);
    var chunks := ChunkList(unique, BatchSize);
    ChunkSizes(unique, BatchSize);
    result := map[];
    requests := 0;
    for i := 0 to |chunks|
      invariant result == MergeBatches(chunks[..i], responses[..i])
      invariant requests == i
    {
      assert chunks[..i + 1][..i] == chunks[..i];
      assert responses[..i + 1][..i] == responses[..i];
      assert |chunks[i]| > 0;
      var batch, sent := ResolveBatch(chunks[i], responses[i]);
      assert sent;
      requests := requests + 1;
      result := result + batch;
    }
    assert chunks[..|chunks|] == chunks;
    assert responses[..|responses|] == responses;
    ghost var merged := result;
    for i := 0 to |unique|
      invariant result == FillMissing(merged, unique[..i])
    {
      assert unique[..i + 1][..i] == unique[..i];
      if unique[i] !in result {
        result := result[unique[i] := PlaceholderUrl];
      }
    }
    assert unique[..|unique|] == unique;
  }

  /** Filling keeps what was there and adds every name. */
  lemma {:induction false} FillMissingCovers(m: map<string, string>, names: seq<string>)
    ensures forall x :: x in m ==> x in FillMissing(m, names) && FillMissing(m, names)[x] == m[x]
    ensures forall x :: x in names ==> x in FillMissing(m, names)
    ensures forall x :: x in FillMissing(m, names) ==> x in m || x in names
    ensures forall x :: x in FillMissing(m, names) && x !in m ==> FillMissing(m, names)[x] == PlaceholderUrl
  {
    if |names| > 0 {
      var init := names[..|names| - 1];
      FillMissingCovers(m, init);
      assert names == init + [names[|names| - 1]];
    }
  }

  /** Every requested file name is a key of the result. */
  lemma EveryNameResolved(filenames: seq<string>, responses: seq<BatchResponse>)
    requires |responses| == |Batches(filenames)|
    ensures forall f :: f in filenames ==> f in ResolvedImages(filenames, responses)
  {
    if filenames != [] {
      DedupeKeepsElements(filenames);
      FillMissingCovers(MergeBatches(Batches(filenames), responses), Dedupe(filenames));
    }
  }

  /** Every value of a merged result is the placeholder or the value some
      page of some reply gives to that key. */
  predicate FromReplies(responses: seq<BatchResponse>, key: string, url: string) {
    url == PlaceholderUrl ||
    exists i :: 0 <= i < |responses| && responses[i].Pages? && PageGives(responses[i].pages, key, url)
  }

  lemma {:induction false} MergedValues(batches: seq<seq<string>>, responses: seq<BatchResponse>)
    requires |responses| == |batches|
    ensures forall k :: k in MergeBatches(batches, responses) ==>
      FromReplies(responses, k, MergeBatches(batches, responses)[k])
  {
    if |batches| > 0 {
      var n := |batches| - 1;
      MergedValues(batches[..n], responses[..n]);
      var prev := MergeBatches(batches[..n], responses[..n]);
      var last := BatchResult(batches[n], responses[n]);
      var m := MergeBatches(batches, responses);
      assert m == prev + last;
      forall k | k in m
        ensures FromReplies(responses, k, m[k])
      {
        if k in last {
          if batches[n] != [] && responses[n].Pages? {
            RecordPagesValues(responses[n].pages);
            assert PageGives(responses[n].pages, k, m[k]);
          }
        } else {
          assert k in prev;
          assert FromReplies(responses[..n], k, prev[k]);
          if prev[k] != PlaceholderUrl {
            var i :| 0 <= i < n && responses[..n][i].Pages? &&
              PageGives(responses[..n][i].pages, k, prev[k]);
            assert responses[i] == responses[..n][i];
          }
        }
      }
    }
  }

  /** Batch `b` is the last batch whose result has the key `k`. */
  predicate LastBatchWith(batches: seq<seq<string>>, responses: seq<BatchResponse>, k: string, b: int)
    requires |responses| == |batches|
  {
    0 <= b < |batches| && k in BatchResult(batches[b], responses[b]) &&
    forall c :: b < c < |batches| ==> k !in BatchResult(batches[c], responses[c])
  }

  /** `all_results.update` lets a later batch win: a key takes the value of
      the last batch whose result has it. */
  lemma {:induction false} LaterBatchWins(batches: seq<seq<string>>, responses: seq<BatchResponse>, k: string, b: nat)
    requires |responses| == |batches|
    requires LastBatchWith(batches, responses, k, b)
    ensures k in MergeBatches(batches, responses)
    ensures MergeBatches(batches, responses)[k] == BatchResult(batches[b], responses[b])[k]
  {
    var n := |batches| - 1;
    if b < n {
      assert LastBatchWith(batches[..n], responses[..n], k, b) by {
        assert batches[..n][b] == batches[b] && responses[..n][b] == responses[b];
        forall c | b < c < n
          ensures k !in BatchResult(batches[..n][c], responses[..n][c])
        {
          assert batches[..n][c] == batches[c] && responses[..n][c] == responses[c];
        }
      }
      LaterBatchWins(batches[..n], responses[..n], k, b);
    }
  }

  /** A key no batch result has is not merged. */
  lemma {:induction false} MergedKeysComeFromBatches(batches: seq<seq<string>>, responses: seq<BatchResponse>, k: string)
    requires |responses| == |batches|
    requires forall c :: 0 <= c < |batches| ==> k !in BatchResult(batches[c], responses[c])
    ensures k !in MergeBatches(batches, responses)
  {
    var n := |batches| - 1;
    if |batches| > 0 {
      forall c | 0 <= c < n
        ensures k !in BatchResult(batches[..n][c], responses[..n][c])
      {
        assert batches[..n][c] == batches[c] && responses[..n][c] == responses[c];
      }
      MergedKeysComeFromBatches(batches[..n], responses[..n], k);
    }
  }

  /** A value the last batch holding a key gives it reaches the result of
      `resolve_images`: the final loop does not override it. */
  lemma BatchValueReachesResult(filenames: seq<string>, responses: seq<BatchResponse>, k: string, b: nat)
    requires |responses| == |Batches(filenames)|
    requires LastBatchWith(Batches(filenames), responses, k, b)
    ensures k in ResolvedImages(filenames, responses)
    ensures ResolvedImages(filenames, responses)[k] == BatchResult(Batches(filenames)[b], responses[b])[k]
  {
    assert filenames != [];
    LaterBatchWins(Batches(filenames), responses, k, b);
    FillMissingCovers(MergeBatches(Batches(filenames), responses), Dedupe(filenames));
  }

  /** The URL a page of a reply gives reaches the result, when the page is
      the last recorded one with its title in that reply and no later
      batch's result has the title. */
  lemma PageUrlReachesResult(filenames: seq<string>, responses: seq<BatchResponse>, b: nat, j: nat)
    requires |responses| == |Batches(filenames)|
    requires b < |responses| && responses[b].Pages? && LastWithTitle(responses[b].pages, j)
    requires forall c :: b < c < |responses| ==>
      responses[b].pages[j].title !in BatchResult(Batches(filenames)[c], responses[c])
    ensures var t := responses[b].pages[j].title;
      t in ResolvedImages(filenames, responses) &&
      ResolvedImages(filenames, responses)[t] == PageValue(responses[b].pages[j])
  {
    var pages := responses[b].pages;
    ChunkSizes(Dedupe(filenames), BatchSize);
    assert Batches(filenames)[b] != [];
    PageTitleIsKey(pages, j);
    BatchValueReachesResult(filenames, responses, pages[j].title, b);
  }

  /** A requested name that no batch result has gets the placeholder. */
  lemma UnresolvedNameGetsPlaceholder(filenames: seq<string>, responses: seq<BatchResponse>, f: string)
    requires |responses| == |Batches(filenames)|
    requires f in filenames
    requires forall c :: 0 <= c < |responses| ==> f !in BatchResult(Batches(filenames)[c], responses[c])
    ensures f in ResolvedImages(filenames, responses)
    ensures ResolvedImages(filenames, responses)[f] == PlaceholderUrl
  {
    var m := MergeBatches(Batches(filenames), responses);
    MergedKeysComeFromBatches(Batches(filenames), responses, f);
    DedupeKeepsElements(filenames);
    FillMissingCovers(m, Dedupe(filenames));
  }

  /** Every value of the result is the placeholder or an image URL some
      reply gives to that key. */
  lemma ResolvedValues(filenames: seq<string>, responses: seq<BatchResponse>)
    requires |responses| == |Batches(filenames)|
    ensures forall k :: k in ResolvedImages(filenames, responses) ==>
      FromReplies(responses, k, ResolvedImages(filenames, responses)[k])
  {
    if filenames != [] {
      var m := MergeBatches(Batches(filenames), responses);
      MergedValues(Batches(filenames), responses);
      FillMissingCovers(m, Dedupe(filenames));
      var r := ResolvedImages(filenames, responses);
      forall k | k in r
        ensures FromReplies(responses, k, r[k])
      {
        if k in m {
          assert r[k] == m[k];
        }
      }
    }
  }

  /** No name, no query, and an empty result. */
  lemma NoNamesNoRequest(responses: seq<BatchResponse>)
    requires |responses| == |Batches([])|
    ensures ResolvedImages([], responses) == map[]
    ensures |Batches([])| == 0
  {
  }

  /** One query per `BATCH_SIZE` distinct names, rounded up. */
  lemma RequestCount(filenames: seq<string>)
    ensures |Batches(filenames)| == (|Dedupe(filenames)| + BatchSize - 1) / BatchSize
  {
    ChunkCount(Dedupe(filenames), BatchSize);
  }

  /** 55 distinct names take two queries. */
  lemma FiftyFiveNamesTwoRequests(filenames: seq<string>)
    requires |filenames| == 55 && NoDuplicates(filenames)
    ensures |Batches(filenames)| == 2
  {
    DedupeOfDistinct(filenames);
    RequestCount(filenames);
  }

  /** Three copies of one name take one query. */
  lemma CopiesOneRequest(name: string)
    ensures |Batches([name, name, name])| == 1
  {
    DedupeOfCopies(name);
  }
}
