/** The digest object: its configuration, the fold over all feeds with
    per-feed failure isolation followed by a stable newest-first sort and a
    cut to the maximum, and the secondary keyword filter
    (automation_news_daily.py, `__init__`, `fetch_news`, `filter_news`). */
module Aggregation {
  import opened Wrappers
  import opened Seqs
  import opened News
  import opened Relevance
  import opened Fetcher
  import opened Sorting

  /** The maximum number of kept items when none is given. */
  const DefaultMaxResults: int := 100

  /** The registry of feeds polled on every run, in polling order. */
  const DefaultFeeds: seq<FeedSource> := [
    FeedSource("TechCrunch", "https://techcrunch.com/feed/"),
    FeedSource("TechCrunch Enterprise", "https://techcrunch.com/enterprise/feed/"),
    FeedSource("VentureBeat", "https://feeds.feedburner.com/venturebeat/SZYF"),
    FeedSource("Wired", "https://www.wired.com/feed/rss"),
    FeedSource("MIT Technology Review", "https://www.technologyreview.com/feed/"),
    FeedSource("UiPath Blog", "https://www.uipath.com/blog/rss.xml"),
    FeedSource("AutomationEdge", "https://automationedge.com/feed"),
    FeedSource("Digital Workforce", "https://digitalworkforce.com/rpa-news/feed/"),
    FeedSource("Intelligent Automation Network", "https://www.intelligentautomation.network/rss/all"),
    FeedSource("Process Excellence Network", "https://www.processexcellencenetwork.com/rss/all"),
    FeedSource("The Enterprisers Project", "https://enterprisersproject.com/taxonomy/term/8271/feed"),
    FeedSource("SSON Analytics RPA", "https://www.sson-analytics.com/taxonomy/term/7066/feed"),
    FeedSource("Convedo Digital Transformation", "https://convedo.com/blog/feed/"),
    FeedSource("Sisua Digital", "https://sisuadigital.com/feed"),
    FeedSource("Roboyo", "https://roboyo.global/insights/feed/")
  ]

  /** The state of a digest: the active keywords, the result limit, the feed
      registry and the items gathered so far. */
  datatype Digest = Digest(keywords: seq<string>, maxResults: int, feeds: seq<FeedSource>, newsItems: seq<Item>)

  /** The run summary `fetch_news` reports. */
  datatype Stats = Stats(totalFeeds: nat, successful: nat, failed: nat, entriesChecked: nat)

  /** A fresh digest: the active keyword list, no items, the default registry. */
  function NewDigest(keywords: Option<seq<string>>, maxResults: int := DefaultMaxResults): (d: Digest)
    ensures |d.keywords| > 0 && d.newsItems == [] && d.feeds == DefaultFeeds && d.maxResults == maxResults
    ensures keywords.Some? && |keywords.value| > 0 ==> d.keywords == keywords.value
    ensures keywords.None? || |keywords.value| == 0 ==> d.keywords == DefaultKeywords
  {
    Digest(ActiveKeywords(keywords), maxResults, DefaultFeeds, [])
  }

  /** The outcome of fetching one feed, with the parser's result per URL given by `parse`. */
  function Fetch(f: FeedSource, keywords: seq<string>, parse: string -> FetchOutcome, today: string): Result<FeedYield, FeedError> {
    FetchFeed(f, parse(f.url), keywords, today)
  }

  /** Reference fold over the feeds, in order: the items of the successful ones... */
  function Gathered(fs: seq<FeedSource>, keywords: seq<string>, parse: string -> FetchOutcome, today: string): seq<Item>
    decreases |fs|
  {
    if |fs| == 0 then []
    else
      var r := Fetch(fs[|fs| - 1], keywords, parse, today);
      Gathered(fs[..|fs| - 1], keywords, parse, today) + (if r.Success? then r.value.items else [])
  }

  /** ...how many succeeded... */
  function Succeeded(fs: seq<FeedSource>, keywords: seq<string>, parse: string -> FetchOutcome, today: string): nat
    decreases |fs|
  {
    if |fs| == 0 then 0
    else
      Succeeded(fs[..|fs| - 1], keywords, parse, today)
      + (if Fetch(fs[|fs| - 1], keywords, parse, today).Success? then 1 else 0)
  }

  /** ...and how many entries the successful ones held. */
  function EntriesChecked(fs: seq<FeedSource>, keywords: seq<string>, parse: string -> FetchOutcome, today: string): nat
    decreases |fs|
  {
    if |fs| == 0 then 0
    else
      var r := Fetch(fs[|fs| - 1], keywords, parse, today);
      EntriesChecked(fs[..|fs| - 1], keywords, parse, today) + (if r.Success? then r.value.entriesCount else 0)
  }

  /** `fetch_news`: every feed is fetched in order; a feed that fails is counted
      and skipped, a feed that succeeds adds its items and its entry count. The
      earlier items followed by the gathered ones are then sorted newest first
      (stably) and cut to `maxResults` with Python's slice semantics. */
  method FetchNews(d: Digest, parse: string -> FetchOutcome, today: string) returns (d': Digest, stats: Stats)
    ensures d' == d.(newsItems := d'.newsItems)
    ensures d'.newsItems == Take(SortByDateDesc(d.newsItems + Gathered(d.feeds, d.keywords, parse, today)), d.maxResults)
    ensures stats.totalFeeds == |d.feeds| == stats.successful + stats.failed
    ensures stats.successful == Succeeded(d.feeds, d.keywords, parse, today)
    ensures stats.entriesChecked == EntriesChecked(d.feeds, d.keywords, parse, today)
  {
    var items := d.newsItems;
    var successful, failed, entries := 0, 0, 0;
    var i := 0;
    while i < |d.feeds|
      invariant 0 <= i <= |d.feeds|
      invariant items == d.newsItems + Gathered(d.feeds[..i], d.keywords, parse, today)
      invariant successful == Succeeded(d.feeds[..i], d.keywords, parse, today)
      invariant successful + failed == i
      invariant entries == EntriesChecked(d.feeds[..i], d.keywords, parse, today)
    {
      assert d.feeds[..i + 1][..i] == d.feeds[..i];
      match Fetch(d.feeds[i], d.keywords, parse, today) {
        case Success(y) =>
          entries := entries + y.entriesCount;
          items := items + y.items;
          successful := successful + 1;
        case Failure(_) =>
          failed := failed + 1;
      }
      i := i + 1;
    }
    assert d.feeds[..i] == d.feeds;
    var sorted := SortByDateDesc(items);
    if |sorted| > d.maxResults {
      sorted := Take(sorted, d.maxResults);
    }
    d' := d.(newsItems := sorted);
    stats := Stats(|d.feeds|, successful, failed, entries);
  }

  /** The gathered items of consecutive runs of feeds concatenate, and their
      counts add up. */
  lemma {:induction false} GatheredAppend(a: seq<FeedSource>, b: seq<FeedSource>, keywords: seq<string>, parse: string -> FetchOutcome, today: string)
    ensures Gathered(a + b, keywords, parse, today) == Gathered(a, keywords, parse, today) + Gathered(b, keywords, parse, today)
    ensures Succeeded(a + b, keywords, parse, today) == Succeeded(a, keywords, parse, today) + Succeeded(b, keywords, parse, today)
    ensures EntriesChecked(a + b, keywords, parse, today) == EntriesChecked(a, keywords, parse, today) + EntriesChecked(b, keywords, parse, today)
    decreases |b|
  {
    if |b| == 0 {
      assert a + b == a;
    } else {
      var b' := b[..|b| - 1];
      assert (a + b)[..|a + b| - 1] == a + b';
      assert (a + b)[|a + b| - 1] == b[|b| - 1];
      GatheredAppend(a, b', keywords, parse, today);
    }
  }

  /** Failure isolation: a feed that fails contributes no items, no entries and
      no success, wherever it stands in the registry. */
  lemma FailedFeedContributesNothing(a: seq<FeedSource>, f: FeedSource, b: seq<FeedSource>, keywords: seq<string>, parse: string -> FetchOutcome, today: string)
    requires Fetch(f, keywords, parse, today).Failure?
    ensures Gathered(a + [f] + b, keywords, parse, today) == Gathered(a + b, keywords, parse, today)
    ensures Succeeded(a + [f] + b, keywords, parse, today) == Succeeded(a + b, keywords, parse, today)
    ensures EntriesChecked(a + [f] + b, keywords, parse, today) == EntriesChecked(a + b, keywords, parse, today)
  {
    GatheredAppend(a, [f], keywords, parse, today);
    GatheredAppend(a + [f], b, keywords, parse, today);
    GatheredAppend(a, b, keywords, parse, today);
    assert [f][..0] == [];
  }

  /** Every gathered item carries the name of a registry feed whose fetch
      succeeded, and no more items are gathered than successful feeds held entries. */
  lemma {:induction false} GatheredFromSucceededFeeds(fs: seq<FeedSource>, keywords: seq<string>, parse: string -> FetchOutcome, today: string)
    ensures |Gathered(fs, keywords, parse, today)| <= EntriesChecked(fs, keywords, parse, today)
    ensures forall x :: x in Gathered(fs, keywords, parse, today) ==>
      exists i :: 0 <= i < |fs| && Fetch(fs[i], keywords, parse, today).Success? && x.source == fs[i].name
    decreases |fs|
  {
    if |fs| > 0 {
      var init := fs[..|fs| - 1];
      var last := fs[|fs| - 1];
      GatheredFromSucceededFeeds(init, keywords, parse, today);
      var r := Fetch(last, keywords, parse, today);
      if r.Success? {
        FetchFeedItems(last, parse(last.url), keywords, today);
        forall x | x in r.value.items ensures x.source == last.name {
          var k :| 0 <= k < |r.value.items| && r.value.items[k] == x;
        }
      }
      forall x | x in Gathered(fs, keywords, parse, today)
        ensures exists i :: 0 <= i < |fs| && Fetch(fs[i], keywords, parse, today).Success? && x.source == fs[i].name
      {
        if x in Gathered(init, keywords, parse, today) {
          var i :| 0 <= i < |init| && Fetch(init[i], keywords, parse, today).Success? && x.source == init[i].name;
          assert fs[i] == init[i];
        } else {
          assert fs[|fs| - 1] == last;
        }
      }
    }
  }

  /** The digest after a fetch is newest first; its length is the smaller of
      the item count and a non-negative limit; date ties keep the order in
      which items were gathered. Where the items come from is stated by
      `GatheredItemsFromEntries` and `DigestItemsFromEntries`. */
  lemma FetchNewsResult(d: Digest, parse: string -> FetchOutcome, today: string)
    ensures var all := d.newsItems + Gathered(d.feeds, d.keywords, parse, today);
      var r := Take(SortByDateDesc(all), d.maxResults);
      && SortedDesc(r)
      && (d.maxResults >= 0 ==> |r| == Min(|all|, d.maxResults))
      && (d.maxResults >= |all| ==> StableDescendingOf(r, all))
      && Seqs.IsSubseq(r, SortByDateDesc(all))
  {
    var all := d.newsItems + Gathered(d.feeds, d.keywords, parse, today);
    var sorted := SortByDateDesc(all);
    var r := Take(sorted, d.maxResults);
    SortIsSorted(all);
    assert r == sorted[..|r|];
    forall i, j | 0 <= i < j < |r| ensures Order.LexLe(r[j].date, r[i].date) {
      assert r[i] == sorted[i] && r[j] == sorted[j];
    }
    TakeIsSubseq(sorted, d.maxResults);
    SortCharacterisation(all, sorted);
  }

  /** `x` is what entry `j` of some successful feed `i` of `fs` yields. */
  predicate YieldedBy(x: Item, fs: seq<FeedSource>, keywords: seq<string>, parse: string -> FetchOutcome, today: string) {
    exists i, j ::
      && 0 <= i < |fs| && Fetch(fs[i], keywords, parse, today).Success?
      && 0 <= j < |parse(fs[i].url).entries|
      && ItemFromEntry(x, parse(fs[i].url).entries[j], fs[i], keywords, today)
  }

  /** Every gathered item is what some entry of a successful feed yields:
      that entry has a title and a url and passed the relevance filter. */
  lemma {:induction false} GatheredItemsFromEntries(fs: seq<FeedSource>, keywords: seq<string>, parse: string -> FetchOutcome, today: string)
    ensures forall x :: x in Gathered(fs, keywords, parse, today) ==>
      YieldedBy(x, fs, keywords, parse, today)
    decreases |fs|
  {
    if |fs| > 0 {
      var init := fs[..|fs| - 1];
      var last := fs[|fs| - 1];
      GatheredItemsFromEntries(init, keywords, parse, today);
      var r := Fetch(last, keywords, parse, today);
      if r.Success? {
        FetchFeedItems(last, parse(last.url), keywords, today);
      }
      forall x | x in Gathered(fs, keywords, parse, today)
        ensures YieldedBy(x, fs, keywords, parse, today)
      {
        if x in Gathered(init, keywords, parse, today) {
          var i, j :| 0 <= i < |init| && Fetch(init[i], keywords, parse, today).Success?
            && 0 <= j < |parse(init[i].url).entries| && ItemFromEntry(x, parse(init[i].url).entries[j], init[i], keywords, today);
          assert fs[i] == init[i];
          assert ItemFromEntry(x, parse(fs[i].url).entries[j], fs[i], keywords, today);
        } else {
          assert r.Success? && x in r.value.items;
          var k :| 0 <= k < |r.value.items| && r.value.items[k] == x;
          var j :| 0 <= j < |parse(last.url).entries| && ItemFromEntry(r.value.items[k], parse(last.url).entries[j], last, keywords, today);
          assert fs[|fs| - 1] == last;
          assert ItemFromEntry(x, parse(fs[|fs| - 1].url).entries[j], fs[|fs| - 1], keywords, today);
        }
      }
    }
  }

  /** After a fetch, every item of the digest was either held before or is
      what an entry of a successful registry feed yields, so no new item
      skipped the relevance filter. */
  lemma DigestItemsFromEntries(d: Digest, parse: string -> FetchOutcome, today: string)
    ensures var r := Take(SortByDateDesc(d.newsItems + Gathered(d.feeds, d.keywords, parse, today)), d.maxResults);
      forall x :: x in r ==> x in d.newsItems || YieldedBy(x, d.feeds, d.keywords, parse, today)
  {
    var g := Gathered(d.feeds, d.keywords, parse, today);
    var all := d.newsItems + g;
    var sorted := SortByDateDesc(all);
    var r := Take(sorted, d.maxResults);
    GatheredItemsFromEntries(d.feeds, d.keywords, parse, today);
    forall x | x in r ensures x in all {
      var k :| 0 <= k < |r| && r[k] == x;
      assert x == sorted[k];
      assert x in multiset(sorted);
    }
  }

  /** An item mentions one of `keywords` in its title or stored description,
      compared case-insensitively. */
  predicate Mentions(x: Item, keywords: seq<string>) {
    MentionsKeyword(CheckedText(x.title, x.description), keywords)
  }

  /** The items mentioning one of `keywords`, in order, each occurrence kept. */
  function Matching(items: seq<Item>, keywords: seq<string>): (m: seq<Item>)
    ensures Seqs.IsSubseq(m, items) && |m| <= |items|
    ensures forall k :: 0 <= k < |m| ==> Mentions(m[k], keywords)
    ensures forall x :: x in items && Mentions(x, keywords) ==> x in m
    ensures forall x :: x in items ==> multiset(m)[x] == if Mentions(x, keywords) then multiset(items)[x] else 0
  {
    FilterIsSubseq((x: Item) => Mentions(x, keywords), items);
    Filter((x: Item) => Mentions(x, keywords), items)
  }

  /** `filter_news`: without additional keywords the digest's items are
      returned as they are; otherwise the items mentioning one of them, in
      order, cut to `maxResults`. The digest itself is not changed. */
  function FilterNews(d: Digest, additional: Option<seq<string>>): (r: seq<Item>)
    ensures additional.None? || |additional.value| == 0 ==> r == d.newsItems
    ensures Seqs.IsSubseq(r, d.newsItems)
    ensures additional.Some? && |additional.value| > 0 ==>
      && (forall k :: 0 <= k < |r| ==> Mentions(r[k], additional.value))
      && (d.maxResults >= |d.newsItems| ==> forall x :: x in d.newsItems && Mentions(x, additional.value) ==> x in r)
      && (d.maxResults >= 0 ==> |r| <= d.maxResults)
    ensures additional.Some? && |additional.value| > 0 ==>
      var m := Matching(d.newsItems, additional.value);
      && |r| <= |m| && r == m[..|r|]
      && (d.maxResults >= 0 ==> |r| == Min(|m|, d.maxResults))
      && (d.maxResults < 0 ==> |r| == Max(0, |m| + d.maxResults))
  {
    if additional.None? || |additional.value| == 0 then
      SubseqRefl(d.newsItems);
      d.newsItems
    else
      var kws := additional.value;
      var matching := Matching(d.newsItems, kws);
      var cut := Take(matching, d.maxResults);
      TakeIsSubseq(matching, d.maxResults);
      SubseqTrans(cut, matching, d.newsItems);
      assert forall k :: 0 <= k < |cut| ==> cut[k] == matching[k];
      cut
  }
}
