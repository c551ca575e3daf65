/**
 * The diagram record, its list projection, and the tag/query predicate that
 * both the store's `findAll` and the service's static-catalogue filter apply.
 */
module Domain {
  import opened Options
  import Text

  /** A point in time, as the clock hands it in (epoch milliseconds). */
  type Instant = int

  /** The flow document (nodes and connections), carried but never inspected. */
  datatype Json = Json(text: string)

  datatype Diagram = Diagram(
    id: string,
    title: string,
    description: Option<string>,
    tags: seq<string>,
    flow: Option<Json>,
    version: int,
    createdAt: Instant,
    updatedAt: Instant,
    source: string)

  /** The listing projection: everything but the flow and the timestamps. */
  datatype DiagramSummary = DiagramSummary(
    id: string,
    title: string,
    description: Option<string>,
    tags: seq<string>,
    version: int,
    source: string)

  const DbSource: string := "db"
  const FileSource: string := "file"
  const StaticIdPrefix: string := "file-"

  function Summarize(d: Diagram): DiagramSummary
  {
    DiagramSummary(d.id, d.title, d.description, d.tags, d.version, d.source)
  }

  /** The summary of each diagram, in the same order. */
  function Summaries(ds: seq<Diagram>): seq<DiagramSummary>
  {
    seq(|ds|, i requires 0 <= i < |ds| => Summarize(ds[i]))
  }

  /** An absent tag filter keeps everything; a present one is an exact, case-sensitive member of the tags. */
  predicate MatchesTag(d: Diagram, tag: Option<string>)
  {
    tag.None? || tag.value in d.tags
  }

  /** An absent query keeps everything; a present one is a case-insensitive substring of the title. */
  predicate MatchesQuery(d: Diagram, query: Option<string>)
  {
    query.None? || Text.ContainsIgnoreCase(d.title, query.value)
  }

  /** Both filters together: their conjunction. */
  predicate Matches(d: Diagram, tag: Option<string>, query: Option<string>)
  {
    MatchesTag(d, tag) && MatchesQuery(d, query)
  }

  /** The query filter looks at the title only, and up to letter case. */
  lemma QueryMatchesTitleOnly(d: Diagram, e: Diagram, q: string)
    requires Text.Lower(d.title) == Text.Lower(e.title)
    ensures MatchesQuery(d, Some(q)) == MatchesQuery(e, Some(q))
    ensures MatchesQuery(d, Some(q)) == MatchesQuery(d, Some(Text.Lower(q)))
  {
    Text.ContainsIgnoreCaseIsCaseBlind(d.title, q);
  }
}
