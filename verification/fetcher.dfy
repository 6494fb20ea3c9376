/** Turning the entries of one parsed feed into news items
    (automation_news_daily.py, `fetch_feed`). */
module Fetcher {
  import opened Wrappers
  import opened Seqs
  import opened News
  import opened Relevance
  import opened Cleanup

  /** Why a feed yields nothing: retrieval or parsing failed, or an entry had
      no title attribute (which raises and aborts the whole feed). */
  datatype FeedError = Unreachable | MissingTitle

  /** A successful pass over one feed: the kept items and how many entries were examined. */
  datatype FeedYield = FeedYield(items: seq<Item>, entriesCount: nat)

  /** An entry's fields after normalisation, before the inclusion test. */
  datatype Candidate = Candidate(title: string, url: string, description: string, date: string)

  /** The description is chosen by attribute presence: the summary, else the
      description, else the first content block when there is one. A present
      but empty summary is used as it is. */
  function PickDescription(e: Entry): (r: string)
    ensures e.summary.Some? ==> r == e.summary.value
    ensures e.summary.None? && e.description.Some? ==> r == e.description.value
    ensures e.summary.None? && e.description.None? ==>
      r == (if e.content.Some? && |e.content.value| > 0 then e.content.value[0] else "")
  {
    if e.summary.Some? then e.summary.value
    else if e.description.Some? then e.description.value
    else if e.content.Some? && |e.content.value| > 0 then e.content.value[0]
    else ""
  }

  /** The publication date: a present, true-like parsed time when it formats,
      else (when that attribute is absent or false-like) the string date when
      it parses, else `today`. A parsed time that fails to format does not
      fall back to the string date. */
  function PickDate(e: Entry, today: string): (r: string)
    ensures r == today || e.publishedParsed == Some(TimeStruct(Day(r))) || e.pubDate == Some(Day(r))
    ensures e.publishedParsed.Some? && e.publishedParsed.value.TimeStruct? ==>
      r == e.publishedParsed.value.formatted.GetOrDay(today)
    ensures (e.publishedParsed.None? || e.publishedParsed.value.FalsyStamp?) && e.pubDate.Some? ==>
      r == e.pubDate.value.GetOrDay(today)
  {
    match e.publishedParsed
    case Some(TimeStruct(f)) => f.GetOrDay(today)
    case _ =>
      match e.pubDate
      case Some(d) => d.GetOrDay(today)
      case None => today
  }

  /** The fields of an entry as the loop reads them (the title only matters
      when it is present; an absent title fails the feed before this is used). */
  function Normalise(e: Entry, today: string): Candidate {
    Candidate(e.title.GetOr(""), e.link.GetOr(""), PickDescription(e), PickDate(e, today))
  }

  /** An entry yields an item when it has a title and a url and the relevance
      filter accepts its title with its raw description. */
  predicate Included(c: Candidate, keywords: seq<string>) {
    |c.title| > 0 && |c.url| > 0 && IsRelated(c.title, c.description, keywords)
  }

  /** The stored item: the candidate's title, url and date, the feed's name,
      and the cleaned description. */
  function ToItem(c: Candidate, source: string): Item {
    Item(c.title, c.url, CleanDescription(c.description), source, c.date)
  }

  /** Reference view: normalise every entry, keep the included ones, and turn each into an item. */
  function Candidates(es: seq<Entry>, today: string): seq<Candidate> {
    seq(|es|, i requires 0 <= i < |es| => Normalise(es[i], today))
  }

  function Kept(cs: seq<Candidate>, keywords: seq<string>): seq<Candidate> {
    Filter((c: Candidate) => Included(c, keywords), cs)
  }

  function ToItems(cs: seq<Candidate>, source: string): seq<Item> {
    seq(|cs|, i requires 0 <= i < |cs| => ToItem(cs[i], source))
  }

  /** The entry loop: entries are visited in feed order and each included one
      contributes an item; a missing title anywhere fails the whole pass. */
  function ProcessEntries(es: seq<Entry>, source: string, keywords: seq<string>, today: string): (r: Result<seq<Item>, FeedError>)
    ensures r.Failure? <==> exists i :: 0 <= i < |es| && es[i].title.None?
    ensures r.Failure? ==> r.error == MissingTitle
    decreases |es|
  {
    if |es| == 0 then Success([])
    else
      var rest := ProcessEntries(es[1..], source, keywords, today);
      assert forall i :: 0 < i < |es| ==> es[i] == es[1..][i - 1];
      match es[0].title
      case None => Failure(MissingTitle)
      case Some(_) =>
        if rest.Failure? then rest
        else
          var c := Normalise(es[0], today);
          Success((if Included(c, keywords) then [ToItem(c, source)] else []) + rest.value)
  }

  /** The loop computes the reference view: the items are exactly the included
      candidates, in entry order, each turned into an item. */
  lemma {:induction false} ProcessEntriesIsFilter(es: seq<Entry>, source: string, keywords: seq<string>, today: string)
    requires ProcessEntries(es, source, keywords, today).Success?
    ensures ProcessEntries(es, source, keywords, today).value == ToItems(Kept(Candidates(es, today), keywords), source)
    decreases |es|
  {
    if |es| > 0 {
      var c := Normalise(es[0], today);
      var cs := Candidates(es, today);
      var tail := Candidates(es[1..], today);
      var b := Included(c, keywords);
      var first := if b then [c] else [];
      assert Kept(cs, keywords) == first + Kept(tail, keywords) by {
        assert cs[0] == c;
        assert cs[1..] == tail;
      }
      ProcessEntriesIsFilter(es[1..], source, keywords, today);
      var restItems := ProcessEntries(es[1..], source, keywords, today).value;
      var head := if b then [ToItem(c, source)] else [];
      assert ProcessEntries(es, source, keywords, today).value == head + restItems;
      assert ToItems(first, source) == head;
      ToItemsAppend(first, Kept(tail, keywords), source);
    }
  }

  lemma ToItemsAppend(a: seq<Candidate>, b: seq<Candidate>, source: string)
    ensures ToItems(a + b, source) == ToItems(a, source) + ToItems(b, source)
  {
  }

  /** `fetch_feed`: the kept items of a parsed feed with the number of entries
      it holds, or the failure of the whole feed. */
  function FetchFeed(feed: FeedSource, outcome: FetchOutcome, keywords: seq<string>, today: string): (r: Result<FeedYield, FeedError>)
    ensures r.Failure? <==> outcome.Failed? || exists i :: 0 <= i < |outcome.entries| && outcome.entries[i].title.None?
    ensures r.Success? ==> r.value.entriesCount == |outcome.entries|
  {
    match outcome
    case Failed => Failure(Unreachable)
    case Parsed(es) =>
      match ProcessEntries(es, feed.name, keywords, today)
      case Failure(err) => Failure(err)
      case Success(items) => Success(FeedYield(items, |es|))
  }

  /** A successful pass keeps exactly the included candidates, in entry order. */
  lemma FetchFeedIsFilter(feed: FeedSource, outcome: FetchOutcome, keywords: seq<string>, today: string)
    requires FetchFeed(feed, outcome, keywords, today).Success?
    ensures FetchFeed(feed, outcome, keywords, today).value.items
         == ToItems(Kept(Candidates(outcome.entries, today), keywords), feed.name)
  {
    ProcessEntriesIsFilter(outcome.entries, feed.name, keywords, today);
  }

  /** `item` is what entry `e` of feed `feed` yields: the entry has a non-empty
      title and url, its title with raw description passes the relevance
      filter, and the item carries the entry's title, url and date, the cleaned
      description and the feed's name. */
  predicate ItemFromEntry(item: Item, e: Entry, feed: FeedSource, keywords: seq<string>, today: string) {
    var c := Normalise(e, today);
    && e.title == Some(item.title)
    && |c.title| > 0 && |c.url| > 0
    && IsRelated(c.title, c.description, keywords)
    && item == Item(c.title, c.url, CleanDescription(c.description), feed.name, c.date)
  }

  /** Every item of a successful pass comes from an entry of the feed as
      described by `ItemFromEntry`, and no more items than entries are kept. */
  lemma FetchFeedItems(feed: FeedSource, outcome: FetchOutcome, keywords: seq<string>, today: string)
    requires FetchFeed(feed, outcome, keywords, today).Success?
    ensures var y := FetchFeed(feed, outcome, keywords, today).value;
      && |y.items| <= y.entriesCount
      && forall k :: 0 <= k < |y.items| ==>
           exists i :: 0 <= i < |outcome.entries| && ItemFromEntry(y.items[k], outcome.entries[i], feed, keywords, today)
  {
    var es := outcome.entries;
    var cs := Candidates(es, today);
    var kept := Kept(cs, keywords);
    var y := FetchFeed(feed, outcome, keywords, today).value;
    FetchFeedIsFilter(feed, outcome, keywords, today);
    forall k | 0 <= k < |y.items|
      ensures exists i :: 0 <= i < |es| && ItemFromEntry(y.items[k], es[i], feed, keywords, today)
    {
      assert kept[k] in kept;
      assert Included(kept[k], keywords);
      var i :| 0 <= i < |cs| && cs[i] == kept[k];
      assert es[i].title.Some?;
      assert ItemFromEntry(y.items[k], es[i], feed, keywords, today);
    }
  }
}
