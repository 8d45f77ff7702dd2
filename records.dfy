/**
 * The records the scraper produces (src/series/mod.rs): a search-result
 * summary and the full series record. Rust's id newtypes (`SeriesId`,
 * `GroupId`, `AuthorId`, `PublisherId`, each wrapping a usize) are type
 * synonyms of `Usize` here.
 */
module Records {
  import opened Wrappers
  import opened Ids

  type SeriesId = Usize
  type GroupId = Usize
  type AuthorId = Usize
  type PublisherId = Usize

  datatype SearchResult = SearchResult(
    id: SeriesId,
    title: string,
    description: Option<string>,
    image: Option<string>,
    year: Option<string>,
    rating: Option<string>)

  datatype Series = Series(
    id: SeriesId,
    title: string,
    description: Option<string>,
    ty: Option<string>,
    relatedSeries: seq<(SeriesId, string, string)>,
    associatedNames: seq<string>,
    groupsScanlating: seq<(GroupId, string)>,
    statusInCoo: seq<string>,
    completelyScanlated: bool,
    animeStartEnd: seq<string>,
    image: Option<string>,
    genre: seq<string>,
    categories: seq<string>,
    categoryRecommendations: seq<(SeriesId, string)>,
    recommendations: seq<(SeriesId, string)>,
    authors: seq<(AuthorId, string)>,
    artists: seq<(AuthorId, string)>,
    year: Option<string>,
    originalPublisher: Option<(PublisherId, string)>,
    serializedIn: seq<(string, string)>,
    licensed: bool,
    englishPublisher: seq<(PublisherId, string, Option<string>)>)

  /** `Series { id, title, ..Default::default() }`: every other field empty, absent or false. */
  function Fresh(id: SeriesId, title: string): Series
  {
    Series(id, title, None, None, [], [], [], [], false, [], None, [], [], [], [], [], [],
           None, None, [], false, [])
  }
}
