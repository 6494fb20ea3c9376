/** The data the digest works on: feed sources, the entries a feed parser
    yields for one of them, and the news items kept from those entries. */
module News {
  import opened Wrappers

  /** One RSS endpoint of the registry. */
  datatype FeedSource = FeedSource(name: string, url: string)

  /** A date source after formatting as `YYYY-MM-DD`, or the failure to format it. */
  datatype DateOutcome = Unparseable | Day(text: string) {

    /** The formatted day, or `fallback` when formatting failed. */
    function GetOrDay(fallback: string): string {
      match this
      case Day(t) => t
      case Unparseable => fallback
    }
  }

  /** The parsed publication time when the attribute is present: either a
      false-like value, or a time structure together with the outcome of
      formatting it. */
  datatype Stamp = FalsyStamp | TimeStruct(formatted: DateOutcome)

  /** One parsed feed entry; `None` is an absent attribute. `content` holds
      the values of the entry's content blocks in order. */
  datatype Entry = Entry(
    title: Option<string>,
    link: Option<string>,
    summary: Option<string>,
    description: Option<string>,
    content: Option<seq<string>>,
    publishedParsed: Option<Stamp>,
    pubDate: Option<DateOutcome>)

  /** What retrieving and parsing one feed produced. */
  datatype FetchOutcome = Failed | Parsed(entries: seq<Entry>)

  /** A kept news item; `description` is already cleaned and `source` is the
      name of the feed it came from. */
  datatype Item = Item(title: string, url: string, description: string, source: string, date: string)
}
