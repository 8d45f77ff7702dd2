/**
 * The search-results page (`parse_search_results` and
 * `parse_year_and_rating` in src/series/parsing.rs).
 */
module SearchPage {
  import opened Wrappers
  import opened Strings
  import opened Ids
  import opened Dom
  import opened Records
  import opened Prefixes

  // ---- The combined "year - rating / scale" block ----

  /** The text the rating is looked for in: after the first `-`, trimmed, when there is one. */
  function RatingText(text: string): string
  {
    match IndexOf(text, "-")
    case Some(p) => Trim(text[p + 1..])
    case None => text
  }

  /**
   * The source slices `[..pos - 1]` before the first `-` and before the first `/`;
   * a separator at index 0 underflows and panics, so both must sit further in.
   */
  predicate SeparatorsSafe(text: string)
  {
    && (IndexOf(text, "-").Some? ==> IndexOf(text, "-").value > 0)
    && (IndexOf(RatingText(text), "/").Some? ==> IndexOf(RatingText(text), "/").value > 0)
  }

  /**
   * How the block splits, case by case: with a hyphen at `p`, the year is
   * everything up to one character before it and the rating is read from the
   * trimmed rest; without a hyphen, a slash means the text is a bare rating;
   * with neither, the whole (trimmed) text is the year, unless it is empty.
   * A rating is everything up to one character before its first slash.
   */
  function SplitYearRating(text: string): (r: (Option<string>, Option<string>))
    requires SeparatorsSafe(text)
    ensures r.0.None? && r.1.None? <==> text == []
  {
    match IndexOf(text, "-")
    case Some(p) =>
      var rest := Trim(text[p + 1..]);
      (Some(text[..p - 1]),
       match IndexOf(rest, "/")
       case Some(q) => Some(rest[..q - 1])
       case None => None)
    case None =>
      match IndexOf(text, "/")
      case Some(q) => (None, Some(text[..q - 1]))
      case None => (if text != [] then Some(Trim(text)) else None, None)
  }

  /**
   * `parse_year_and_rating`: the source's step-by-step version, which
   * narrows `text` after the hyphen and may fill `year` late.
   */
  method ParseYearAndRating(node: Node) returns (year: Option<string>, rating: Option<string>)
    requires SeparatorsSafe(TextOf(node))
    ensures (year, rating) == SplitYearRating(TextOf(node))
  {
    var text := TextOf(node);
    match IndexOf(text, "-") {
      case Some(pos) =>
        year := Some(text[..pos - 1]);
        text := Trim(text[pos + 1..]);
      case None =>
        year := None;
    }
    match IndexOf(text, "/") {
      case Some(pos) =>
        rating := Some(text[..pos - 1]);
      case None =>
        if text != [] && year.None? {
          year := Some(Trim(text));
        }
        rating := None;
    }
  }

  /** A year before the first hyphen is final: nothing after it can replace it. */
  lemma YearBeforeHyphenIsKept(text: string, p: nat)
    requires SeparatorsSafe(text) && IndexOf(text, "-") == Some(p)
    ensures SplitYearRating(text).0 == Some(text[..p - 1])
    ensures SplitYearRating(text).1.Some? <==> IndexOf(Trim(text[p + 1..]), "/").Some?
  {
  }

  /** Neither separator: no rating, and a year exactly when the text is non-empty. */
  lemma NoSeparatorMeansYearOnly(text: string)
    requires '-' !in text && '/' !in text
    ensures SeparatorsSafe(text)
    ensures SplitYearRating(text).1 == None
    ensures SplitYearRating(text).0.Some? <==> text != []
    ensures SplitYearRating(text).0.Some? ==> SplitYearRating(text).0.value == Trim(text)
  {
    IndexOfAbsentChar(text, '-');
    IndexOfAbsentChar(text, '/');
  }

  /** With both separators where they belong, the split is the year before the hyphen and the rating before the slash. */
  lemma SplitWithBoth(text: string, p: nat, rest: string, q: nat)
    requires IndexOf(text, "-") == Some(p) && p > 0
    requires rest == Trim(text[p + 1..])
    requires IndexOf(rest, "/") == Some(q) && q > 0
    ensures SeparatorsSafe(text)
    ensures SplitYearRating(text) == (Some(text[..p - 1]), Some(rest[..q - 1]))
  {
  }

  /** "2001 - 8.5 / 10" is year "2001" and rating "8.5". */
  lemma YearAndRatingExample(text: string)
    requires text == "2001 - 8.5 / 10"
    ensures SeparatorsSafe(text)
    ensures SplitYearRating(text) == (Some("2001"), Some("8.5"))
  {
    var rest := ExampleHyphenStep(text);
    ExampleSlashStep(rest);
    SplitWithBoth(text, 5, rest, 4);
    assert text[..4] == "2001" && rest[..3] == "8.5";
  }

  /** The hyphen of "2001 - 8.5 / 10" is at 5 and what follows trims to "8.5 / 10". */
  lemma ExampleHyphenStep(text: string) returns (rest: string)
    requires text == "2001 - 8.5 / 10"
    ensures rest == "8.5 / 10"
    ensures IndexOf(text, "-") == Some(5) && Trim(text[6..]) == rest
  {
    assert text[..5] == "2001 " && text[5] == '-';
    IndexOfFirstChar(text, '-', 5);
    rest := ExampleAfterHyphen(text[6..]);
  }

  /** " 8.5 / 10" trims to "8.5 / 10". */
  lemma ExampleAfterHyphen(after: string) returns (rest: string)
    requires after == " 8.5 / 10"
    ensures rest == "8.5 / 10" && Trim(after) == rest
  {
    rest := after[1..];
    assert after == [' '] + rest;
    assert rest[0] == '8' && rest[|rest| - 1] == '0';
    TrimOneLeadingSpace(rest);
  }

  /** The slash of "8.5 / 10" is at 4. */
  lemma ExampleSlashStep(rest: string)
    requires rest == "8.5 / 10"
    ensures IndexOf(rest, "/") == Some(4)
  {
    assert rest[..4] == "8.5 " && rest[4] == '/';
    IndexOfFirstChar(rest, '/', 4);
  }

  /** "8.5 / 10" is no year and rating "8.5". */
  lemma RatingOnlyExample(text: string)
    requires text == "8.5 / 10"
    ensures SeparatorsSafe(text)
    ensures SplitYearRating(text) == (None, Some("8.5"))
  {
    IndexOfAbsentChar(text, '-');
    assert text[..4] == "8.5 " && text[4] == '/';
    IndexOfFirstChar(text, '/', 4);
    assert text[..3] == "8.5";
  }

  /** "2001" is year "2001" and no rating. */
  lemma YearOnlyExample(text: string)
    requires text == "2001"
    ensures SeparatorsSafe(text)
    ensures SplitYearRating(text) == (Some("2001"), None)
  {
    NoSeparatorMeansYearOnly(text);
    TrimmedIsFixed(text);
  }

  // ---- One result container ----

  /** `find(Class("flex-column")).next()?.children().filter(|n| !n.is(Text))`. */
  function ResultItems(c: Node): Option<seq<Node>>
  {
    var flex := Find(c, Class("flex-column"));
    if flex == [] then None else Some(ElementChildren(flex[0]))
  }

  /** The title block's text and the id of its first link, if that link's target carries one. */
  function TitleAndId(items: seq<Node>): Option<(string, SeriesId)>
  {
    if items == [] then None
    else
      var links := Find(items[0], Name("a"));
      if links == [] then None
      else match GetId(GetAttr(links[0], "href"))
        case None => None
        case Some(id) => Some((TextOf(items[0]), id))
  }

  /** The first image of the container, if any, must carry a `src` (the source unwraps it). */
  predicate ImageSafe(c: Node)
  {
    var imgs := Find(c, Name("img"));
    imgs == [] || GetAttr(imgs[0], "src").Some?
  }

  /** Nothing in the container makes the source panic before it is accepted or rejected. */
  predicate ContainerSafe(c: Node)
  {
    && ImageSafe(c)
    && (ResultItems(c).Some? && TitleAndId(ResultItems(c).value).Some? && |ResultItems(c).value| >= 4
        ==> SeparatorsSafe(TextOf(ResultItems(c).value[3])))
  }

  function Image(c: Node): Option<string>
    requires ImageSafe(c)
  {
    var imgs := Find(c, Name("img"));
    if imgs == [] then None else GetAttr(imgs[0], "src")
  }

  /**
   * What one `col-lg-6` container yields: the items of its flex column are
   * title (with the id-bearing link), genres (skipped), description and
   * year/rating; any of them missing yields nothing.
   */
  function Summarize(c: Node): (r: Option<SearchResult>)
    requires ContainerSafe(c)
    ensures r.Some? ==> ResultItems(c).Some? && |ResultItems(c).value| >= 4 && r.value.description != Some([])
  {
    match ResultItems(c)
    case None => None
    case Some(items) =>
      match TitleAndId(items)
      case None => None
      case Some(titleAndId) =>
        if |items| < 4 then None
        else
          var desc := TextOf(items[2]);
          var yearAndRating := SplitYearRating(TextOf(items[3]));
          Some(SearchResult(
            titleAndId.1,
            titleAndId.0,
            if Trim(desc) == "N/A" || desc == [] then None else Some(desc),
            Image(c),
            yearAndRating.0,
            yearAndRating.1))
  }

  /** A container is accepted exactly when its flex column, title link id and four items are all there. */
  lemma SummarizeAccepts(c: Node)
    requires ContainerSafe(c)
    ensures Summarize(c).Some? <==>
      (ResultItems(c).Some? && TitleAndId(ResultItems(c).value).Some? && |ResultItems(c).value| >= 4)
  {
  }

  /** A summary's description is absent exactly for an empty or "N/A" block; otherwise it is the untrimmed text. */
  lemma SummaryDescription(c: Node, r: SearchResult)
    requires ContainerSafe(c) && Summarize(c) == Some(r)
    ensures var desc := TextOf(ResultItems(c).value[2]);
      && (r.description.None? <==> (Trim(desc) == "N/A" || desc == []))
      && (r.description.Some? ==> r.description.value == desc)
  {
  }

  // ---- The whole page ----

  function Containers(doc: Document): seq<Node>
  {
    FindInDocument(doc, Class("col-lg-6"))
  }

  /**
   * One pass of the loop body of `parse_search_results`: the container's
   * summary, or None where the source's `?` gives up.
   */
  method ParseContainer(node: Node) returns (r: Option<SearchResult>)
    requires ContainerSafe(node)
    ensures r == Summarize(node)
  {
    var imgs := Find(node, Name("img"));
    var image := if imgs == [] then None else Some(GetAttr(imgs[0], "src").value);
    assert image == Image(node);
    var flex := Find(node, Class("flex-column"));
    if flex == [] {
      return None;
    }
    var data := ElementChildren(flex[0]);
    assert ResultItems(node) == Some(data);
    if data == [] {
      return None;
    }
    var title := TextOf(data[0]);
    var links := Find(data[0], Name("a"));
    if links == [] {
      return None;
    }
    var id := GetId(GetAttr(links[0], "href"));
    if id.None? {
      return None;
    }
    assert TitleAndId(data) == Some((title, id.value));
    // data[1] holds the genres, which are skipped.
    if |data| < 3 {
      return None;
    }
    var desc := TextOf(data[2]);
    if |data| < 4 {
      return None;
    }
    var year, rating := ParseYearAndRating(data[3]);
    r := Some(SearchResult(
      id.value,
      title,
      if Trim(desc) == "N/A" || desc == [] then None else Some(desc),
      image,
      year,
      rating));
  }

  /**
   * The summaries of the leading run of well-formed containers: the first
   * container that is missing a part ends the list (see
   * `Prefixes.TakeWhileSomeIsLeadingRun`).
   */
  function Summaries(cs: seq<Node>): seq<SearchResult>
    requires Reached(cs, Summarize)
  {
    TakeWhileSome(cs, Summarize)
  }

  /**
   * Every result is the summary of the container at the same position, and
   * the list ends at the last container or at the first malformed one:
   * well-formed containers after a malformed one are lost.
   */
  lemma SummariesStopAtMalformed(cs: seq<Node>)
    requires Reached(cs, Summarize)
    ensures |Summaries(cs)| <= |cs|
    ensures forall k :: 0 <= k < |Summaries(cs)| ==> ContainerSafe(cs[k]) && Summarize(cs[k]) == Some(Summaries(cs)[k])
    ensures |Summaries(cs)| < |cs| ==> ContainerSafe(cs[|Summaries(cs)|]) && Summarize(cs[|Summaries(cs)|]).None?
  {
    TakeWhileSomeIsLeadingRun(cs, Summarize);
  }

  /** One pass of the search loop, stated on the containers still to read. */
  lemma SummariesStep(done: seq<SearchResult>, rest: seq<Node>)
    requires rest != [] && Reached(rest, Summarize)
    ensures ContainerSafe(rest[0])
    ensures Summarize(rest[0]).None? ==> done + Summaries(rest) == done
    ensures Summarize(rest[0]).Some? ==>
      Reached(rest[1..], Summarize) && done + Summaries(rest) == (done + [Summarize(rest[0]).value]) + Summaries(rest[1..])
  {
    TakeWhileSomeAfter(done, rest, Summarize);
  }

  /**
   * `parse_search_results`: one summary per leading container, in document
   * order, stopping for good at the first container that is missing a part
   * (the `?` leaves the whole inner function, so later containers are lost too).
   */
  method ParseSearchResults(doc: Document) returns (results: seq<SearchResult>)
    requires Reached(Containers(doc), Summarize)
    ensures results == Summaries(Containers(doc))
  {
    results := ParseContainers(Containers(doc));
  }

  /** The loop of `parse_search_results` over the selected containers. */
  method ParseContainers(cs: seq<Node>) returns (results: seq<SearchResult>)
    requires Reached(cs, Summarize)
    ensures results == Summaries(cs)
  {
    results := [];
    var rest := cs;
    while rest != []
      invariant Reached(rest, Summarize)
      invariant results + Summaries(rest) == Summaries(cs)
    {
      SummariesStep(results, rest);
      var summary := ParseContainer(rest[0]);
      if summary.None? {
        return;
      }
      results := results + [summary.value];
      rest := rest[1..];
    }
    assert results + [] == results;
  }
}
