# mu-rs page extraction, modelled in Dafny

mu-rs is a client library for the MangaUpdates site. This project models
the part of it that turns a fetched HTML page into records. There are two
page kinds:

- **Search results page.** Each `col-lg-6` container, up to the first one
  that lacks a part, becomes a search result: id, title, description,
  poster image, year and rating.
- **Series page.** The title plus two `col-6 p-2` columns. Their
  `sContent` blocks are decoded one block per field into the 22-field
  series record.

Link targets are turned into numeric ids by `get_id`. It takes the text
after the first `id=` and parses the whole of it as a `usize`.

The HTML tree is abstract (module `Dom`): a node is a text node or an
element with a name, classes, attributes and children. The `select`
crate operations are modelled as follows:

- `text()` is the concatenation of the descendant text nodes;
- `find(predicate)` is a preorder filter over the proper descendants;
- `children()` is the children in order;
- `attr()` is the first attribute with the name.

Rust's `str::trim`, `str::find` and `usize::from_str` are modelled in
`Strings` and `Ids`, character for character.

Each module's form follows the source:

- **Pure decoders are functions.** `get_id` and the field decoders that
  return a value (description, image, year, original publisher,
  licensed).
- **Loops are methods.** Every decoder that pushes into a list of the
  record through `&mut Series` is a method with a `while` loop. Each loop
  is proved against a function that states what the decoder appends.
  `ParseX(b, s)` returns the record with exactly that field extended
  (replaced, for the genres).
- **The record.** `Series` is a value: the mutable borrow becomes "take
  the record, return it updated".
- **Loop shapes.** The `?` inside those loops gives three shapes, each
  defined once in `Prefixes`:
  - stop at the first failure (`LeadingSome`, over `TakeWhileSome`);
  - skip, keep or stop per element (`Scan`);
  - skip or keep (`Kept`).

  Each shape has a characterisation lemma.

## Model

| member | source | states |
|---|---|---|
| Ids.ParseUsizeMeaning | src/lib.rs:39 | `parse::<usize>()` accepts exactly one optional `+` followed by a non-empty run of decimal digits whose value is at most `usize::MAX`, and yields that value |
| Ids.DigitsValueIsDecimal | src/lib.rs:39 | reading digit by digit succeeds exactly on digit strings and gives their decimal value |
| Ids.ParseUsizeAccepts | src/lib.rs:39 | a fitting digit string is accepted, with or without one leading `+` |
| Ids.ParseUsizeRejectsEmpty | src/lib.rs:39 | the empty suffix and a lone `+` give no id |
| Ids.ParseUsizeRejectsNonDigit | src/lib.rs:39 | any non-digit character (other than one leading `+`) rejects the whole suffix |
| Ids.ParseUsizeRejectsOverflow | src/lib.rs:39 | a value above `usize::MAX` is rejected, not wrapped |
| Ids.DecimalValueOfDecimal | src/lib.rs:39 | the value of the decimal rendering of `n` is `n` |
| Ids.ParseUsizeOfDecimal | src/lib.rs:39 | round trip: parsing the decimal rendering of any usize gives it back |
| Ids.Decimal | src/lib.rs:39 | the rendering of a number is a non-empty digit string without a leading zero |
| Ids.GetIdOfNone | src/lib.rs:35 | no link target, no id |
| Ids.GetIdWithoutMarker | src/lib.rs:37 | a target without `id=` gives no id |
| Ids.GetIdFirstMarker | src/lib.rs:34-42 | only the first `id=` counts, and the id is the parse of everything after it |
| Ids.GetIdRoundTrip | src/lib.rs:34-42 | round trip: a prefix without `id=`, then `id=` and a rendered usize, gives that usize |
| Ids.NoMarkerWithoutEquals | src/lib.rs:37 | a prefix without `=` holds no `id=` |
| Ids.GetIdExampleSeriesPage | src/lib.rs:34-42 | `series.html?id=42` names 42 |
| Ids.ParseFortyTwo | src/lib.rs:39 | `42` parses to 42 |
| Ids.GetIdExampleTrailingParameter | src/lib.rs:34-42 | `?id=42&x=1` names nothing, because the trailing parameter belongs to the suffix |
| Ids.DigitValue | src/lib.rs:39 | a digit's value is below ten |
| Ids.DigitChar | src/lib.rs:39 | the digit for a value below ten is a digit with that value |
| Ids.ParseUsize | src/lib.rs:39 | the model of `parse::<usize>().ok()`; its contract: nothing parses from an empty string or a lone `+` (the full rule is `ParseUsizeMeaning`) |
| Ids.GetId | src/lib.rs:34-42 | the model of `get_id`; its contract: an id comes only from a present target that holds `id=` (the full rule is `GetIdFirstMarker` and `GetIdRoundTrip`) |
| Strings.IndexFrom | src/lib.rs:37 | a reported position is at or after the start and holds the pattern |
| Strings.IndexOf | src/lib.rs:37 | `find` reports a position where the pattern occurs |
| Strings.IndexFromIsFirst | src/lib.rs:37 | the search skips no occurrence, and reports none only when there is none |
| Strings.IndexOfIsFirstOccurrence | src/series/parsing.rs:62 | `find` gives the first occurrence, and nothing exactly when the pattern never occurs |
| Strings.IndexOfIsFirst | src/lib.rs:37 | an occurrence with none before it is what `find` reports |
| Strings.IndexOfFirstChar | src/series/parsing.rs:62 | the first position of a character is where `find` finds it |
| Strings.IndexOfAbsentChar | src/series/parsing.rs:71 | a character that does not occur is not found |
| Strings.TrimStartIsSuffix | src/series/parsing.rs:64 | `trim_start` keeps a suffix that does not start with whitespace |
| Strings.TrimEndIsPrefix | src/series/parsing.rs:64 | `trim_end` keeps a prefix that does not end with whitespace |
| Strings.TrimEnds | src/series/parsing.rs:165 | a trimmed string neither starts nor ends with whitespace |
| Strings.TrimStartDropsOnlyWhitespace | src/series/parsing.rs:64 | everything `trim_start` removes is whitespace |
| Strings.TrimEndDropsOnlyWhitespace | src/series/parsing.rs:64 | everything `trim_end` removes is whitespace |
| Strings.TrimmedIsFixed | src/series/parsing.rs:165 | a string without surrounding whitespace is its own trim |
| Strings.TrimSkipsLeading | src/series/parsing.rs:64 | a leading whitespace character does not survive a trim |
| Strings.TrimOneLeadingSpace | src/series/parsing.rs:64 | one space before a trimmed string is all a trim removes |
| Strings.TrimIdempotent | src/series/parsing.rs:165 | trimming twice is trimming once |
| Strings.TrimAllWhitespace | src/series/parsing.rs:167 | an all-whitespace string trims to empty |
| Strings.TrimStartSkipsWhitespace | src/series/parsing.rs:64 | leading whitespace of any length does not change `trim_start` |
| Strings.TrimEndSkipsWhitespace | src/series/parsing.rs:64 | trailing whitespace of any length does not change `trim_end` |
| Strings.TrimPadded | src/series/parsing.rs:354 | whitespace around a word is exactly what `trim` removes |
| Strings.Trim | src/series/parsing.rs:165 | the model of `str::trim`; its contract: trimming never lengthens (what it removes is `TrimStartDropsOnlyWhitespace`, `TrimEndDropsOnlyWhitespace` and `TrimEnds`) |
| Dom.GetAttr | src/series/parsing.rs:24 | a found attribute value belongs to an element carrying that attribute |
| Dom.AttrIn | src/series/parsing.rs:24 | a found value is the value of an attribute with that name |
| Dom.AttrInAbsent | src/series/parsing.rs:306 | `attr` finds nothing exactly when no attribute has the name |
| Dom.Filter | src/series/parsing.rs:8 | a `find` yields no more nodes than it searches |
| Dom.FilterMembers | src/series/parsing.rs:8 | `find` keeps exactly the matching nodes |
| Dom.FilterAppend | src/series/parsing.rs:8 | `find` over two forests is the two finds, in order |
| Dom.ElementsOf | src/series/parsing.rs:17 | filtering out text nodes yields no more nodes than it is given |
| Dom.ElementsOfMembers | src/series/parsing.rs:17 | `filter(\|n\| !n.is(Text))` keeps exactly the elements |
| Dom.TextOfAllAppend | src/series/parsing.rs:59 | the text of two forests is their texts joined |
| Dom.TextNodesSpellText | src/series/parsing.rs:229-232 | the text nodes of a forest, in document order, spell its text |
| Dom.TextIsTextDescendants | src/series/parsing.rs:229-232 | an element's `text()` is the concatenation of what `find(Text)` yields |
| Prefixes.TakeWhileSomeIsLeadingRun | src/series/parsing.rs:8-47 | a `?` inside a loop keeps the successes of a leading run, and the run ends only at the end or at the first failure |
| Prefixes.TakeWhileSomeLength | src/series/parsing.rs:8-47 | no more results than inputs |
| Prefixes.TakeWhileSomeAt | src/series/parsing.rs:8-47 | result `i` is the success of input `i` |
| Prefixes.TakeWhileSomeStops | src/series/parsing.rs:8-47 | the input after the last result failed |
| Prefixes.TakeWhileSomeAllSucceed | src/series/parsing.rs:8-47 | when every input succeeds, every input has its result |
| Prefixes.TakeWhileSomeStep | src/series/parsing.rs:8-47 | one pass of the loop: a failure ends the list, a success is prepended |
| Prefixes.TakeWhileSomeNext | src/series/parsing.rs:8-47 | the same step at any loop position |
| Prefixes.TakeWhileSomeAfter | src/series/parsing.rs:8-47 | the same step with the results collected so far in front: a failure leaves them as the answer, a success appends one result and moves on |
| Prefixes.ReachedTotal | src/series/parsing.rs:319-332 | a total step can be run over any input |
| Prefixes.LeadingSome | src/series/parsing.rs:324-329 | a stop-at-failure loop over a step that cannot panic yields no more results than inputs |
| Prefixes.FirstStop | src/series/parsing.rs:305-316 | the position of the first stopping element lies within the input |
| Prefixes.FirstStopIsFirst | src/series/parsing.rs:305-316 | no element before that position stops, and the element at it does |
| Prefixes.Scan | src/series/parsing.rs:305-316 | a skip/keep/stop loop yields no more results than inputs |
| Prefixes.Kept | src/series/parsing.rs:200-207 | a skip/keep loop yields no more results than inputs |
| Prefixes.ScanIsKeptBeforeStop | src/series/parsing.rs:305-316 | a skip/keep/stop loop keeps what a skip/keep loop keeps over the elements before the first stop |
| Prefixes.ScanWithoutStop | src/series/parsing.rs:305-316 | without a stopping element, a skip/keep/stop loop is a skip/keep loop |
| Prefixes.ScanNext | src/series/parsing.rs:305-316 | one pass of a skip/keep/stop loop at any position |
| Prefixes.LeadingSomeNext | src/series/parsing.rs:324-329 | one pass of a stop-at-failure loop at any position |
| Prefixes.LeadingSomeOfTotal | src/series/parsing.rs:377-384 | when no step fails, there is one result per input, in order |
| Prefixes.KeptMembers | src/series/parsing.rs:200-207 | a skip/keep loop keeps exactly the kept values of its inputs |
| Prefixes.KeptNext | src/series/parsing.rs:200-207 | one pass of a skip/keep loop at any position |
| SearchPage.ParseYearAndRating | src/series/parsing.rs:58-81 | the step-by-step source procedure gives the case split of `SplitYearRating`: year before the hyphen, rating before the slash, or the whole trimmed text as year |
| SearchPage.YearBeforeHyphenIsKept | src/series/parsing.rs:62-69 | with a hyphen, the year is the text up to one character before it, and nothing later replaces it |
| SearchPage.NoSeparatorMeansYearOnly | src/series/parsing.rs:73-77 | with neither separator there is no rating, and there is a year (the trimmed text) exactly when the text is non-empty |
| SearchPage.SplitWithBoth | src/series/parsing.rs:58-81 | with both separators, year and rating are the texts before them, less one character |
| SearchPage.SplitYearRating | src/series/parsing.rs:58-81 | what `parse_year_and_rating` returns; its contract: it finds neither a year nor a rating exactly when the text is empty |
| SearchPage.YearAndRatingExample | src/series/parsing.rs:58-81 | `2001 - 8.5 / 10` gives year `2001` and rating `8.5` |
| SearchPage.ExampleHyphenStep | src/series/parsing.rs:62-64 | the hyphen of `2001 - 8.5 / 10` is at 5 and leaves `8.5 / 10` |
| SearchPage.ExampleAfterHyphen | src/series/parsing.rs:64 | trimming ` 8.5 / 10` leaves `8.5 / 10` |
| SearchPage.ExampleSlashStep | src/series/parsing.rs:71 | the slash of `8.5 / 10` is at 4 |
| SearchPage.RatingOnlyExample | src/series/parsing.rs:71-72 | `8.5 / 10` gives no year and rating `8.5` |
| SearchPage.YearOnlyExample | src/series/parsing.rs:74-76 | `2001` gives year `2001` and no rating |
| SearchPage.SummarizeAccepts | src/series/parsing.rs:13-33 | records the acceptance rule: a container gives a result exactly when its flex column, title link id and four items are all there |
| SearchPage.SummaryDescription | src/series/parsing.rs:38-42 | records the description rule: absent exactly for an empty or "N/A" block, otherwise the untrimmed text |
| SearchPage.Summarize | src/series/parsing.rs:9-46 | what one container yields; its contract: a result needs a flex column with at least four items, and its description is never empty |
| SearchPage.ParseContainer | src/series/parsing.rs:9-46 | one pass of the loop body yields the container's summary, or nothing where a `?` gives up |
| SearchPage.SummariesStopAtMalformed | src/series/parsing.rs:7-53 | about `Summaries`, the model of what `parse_search_results` returns: result `k` is container `k`'s summary, there are no more results than containers, and the list ends at the first malformed container, losing every later one |
| SearchPage.ParseSearchResults | src/series/parsing.rs:6-56 | the loop returns the summaries of the leading run of well-formed containers |
| SearchPage.ParseContainers | src/series/parsing.rs:8-47 | the loop over the selected containers returns exactly their leading run of summaries, stopping at the first malformed container |
| SearchPage.SummariesStep | src/series/parsing.rs:8-47 | one pass of the search loop: a malformed container leaves the collected summaries as the answer, a well-formed one appends its summary |
| Fields.Texts | src/series/parsing.rs:252 | one text per node |
| Fields.TextsAt | src/series/parsing.rs:252 | text `i` is node `i`'s text |
| Fields.ConcatTexts | src/series/parsing.rs:229-232 | the texts of some nodes, joined, are the nodes' text |
| Fields.DescriptionIsTrimmed | src/series/parsing.rs:154-172 | a description is never blank and never carries surrounding whitespace |
| Fields.DescriptionPrefersFullText | src/series/parsing.rs:159-160 | with a `div_desc_more` element, only the text of its first child counts |
| Fields.DescriptionOfChildlessMore | src/series/parsing.rs:160 | a `div_desc_more` element without children leaves the description absent |
| Fields.DescriptionOfPlainBlock | src/series/parsing.rs:158-171 | without a `div_desc_more` element the description is the block's own trimmed text, or absent when that is blank |
| Fields.Description | src/series/parsing.rs:154-172 | the model of `parse_description`; its contract: an "N/A" block gives nothing, and a description is never empty |
| Fields.CoverImageIsFirstImage | src/series/parsing.rs:245-249 | records the decoding rule: only the first image is looked at, and its `src` attribute is the image when there is one |
| Fields.CoverImage | src/series/parsing.rs:245-249 | the model of `parse_image`; its contract: an image needs an `img` in the block |
| Fields.Year | src/series/parsing.rs:349-355 | the year is absent exactly when the trimmed block reads "N/A" |
| Fields.YearIsTrimmed | src/series/parsing.rs:349-355 | whitespace around the year does not matter, and the year carries none |
| Fields.IdLink | src/series/parsing.rs:324-326 | a link gives an entry exactly when its target names an id |
| Fields.OriginalPublisherIsFirstLink | src/series/parsing.rs:357-368 | records the decoding rule: the publisher is present exactly when the block is not "N/A" and its first link names an id, and is that link's id and text |
| Fields.OriginalPublisher | src/series/parsing.rs:357-368 | the model of `parse_original_publisher`; its contract: a publisher needs a block that is not "N/A" and holds a link |
| Fields.LicensedIgnoresPadding | src/series/parsing.rs:387-389 | licensed exactly when the text, less surrounding whitespace, is "Yes" |
| Fields.Licensed | src/series/parsing.rs:387-389 | the model of `parse_licensed`; its contract: a licensed block is never the "N/A" placeholder |
| Fields.NextGroup | src/series/parsing.rs:181-192 | after reading a group, the cursor has moved and stays within the children |
| Fields.PairsAt | src/series/parsing.rs:181-192 | group `k` is children `3k` and `3k + 1`, and a trailing single child is dropped |
| Fields.PairsNext | src/series/parsing.rs:181-192 | one pass of a group loop from the cursor |
| Fields.Related | src/series/parsing.rs:174-193 | what `parse_related` appends; its contract: nothing for "N/A", and at most one entry per complete group of three children |
| Fields.SerializedIn | src/series/parsing.rs:370-385 | what `parse_serialized_in` appends; its contract: nothing for "N/A", and at most one entry per complete group |
| Fields.EnglishPublishers | src/series/parsing.rs:391-417 | what `parse_english_publisher` appends; its contract: nothing for "N/A", and at most one entry per complete group |
| Fields.RelatedAreLeadingGroups | src/series/parsing.rs:174-193 | entry `k` is the id and text of child `3k` and the text of child `3k + 1`, and the list ends before the first group whose link names no id |
| Fields.SerializedInIsEveryGroup | src/series/parsing.rs:370-385 | there is one entry per complete group, whatever the children hold: nothing ends the loop early |
| Fields.SerializedInEntries | src/series/parsing.rs:377-384 | entry `k` is the text of child `3k` as is, with the text of child `3k + 1` trimmed |
| Fields.EnglishPublisherNotes | src/series/parsing.rs:391-417 | entry `k` is the id and text of child `3k`, with a note exactly when child `3k + 1`'s trimmed text is not blank |
| Fields.EnglishPublishersStop | src/series/parsing.rs:399-416 | the list ends at the last complete group or just before the first group whose link names no id; with `EnglishPublisherNotes`, every earlier group gives its entry |
| Fields.ParseRelated | src/series/parsing.rs:174-193 | appends exactly `Related(b)` to the related series, and nothing else changes |
| Fields.PushRelated | src/series/parsing.rs:181-192 | the triple loop appends the leading groups whose link names an id |
| Fields.ParseSerializedIn | src/series/parsing.rs:370-385 | appends exactly `SerializedIn(b)`, and nothing else changes |
| Fields.PushSerializedIn | src/series/parsing.rs:377-384 | the triple loop appends one entry per complete group |
| Fields.ParseEnglishPublisher | src/series/parsing.rs:391-417 | appends exactly `EnglishPublishers(b)`, and nothing else changes |
| Fields.PushEnglishPublishers | src/series/parsing.rs:399-416 | the triple loop appends the leading groups whose link names an id |
| Fields.AssociatedNamesAreCleanTexts | src/series/parsing.rs:195-208 | the names are exactly the trimmed text-node texts that are neither blank nor "N/A", and none carries surrounding whitespace |
| Fields.AssociatedNames | src/series/parsing.rs:195-208 | what `parse_associated_names` appends; its contract: nothing for "N/A", and at most one name per text node |
| Fields.TextPiecesSpellText | src/series/parsing.rs:225-243 | the status lines (and anime lines), joined, give back the block's whole text |
| Fields.TextPiecesKeepPaddedPlaceholder | src/series/parsing.rs:226 | the placeholder test is on the untrimmed text, so ` N/A` is kept as a line |
| Fields.GenresDropLastLink | src/series/parsing.rs:251-255 | one genre per link except the last, in link order |
| Fields.Genres | src/series/parsing.rs:251-255 | what `parse_genre` leaves; its contract: one genre fewer than the links, and none without links |
| Fields.Scanlators | src/series/parsing.rs:210-223 | what `parse_scanlating` appends; its contract: nothing for "N/A", and at most one group per `Group Info` link |
| Fields.CategoryRecommendations | src/series/parsing.rs:279-292 | what `parse_category_recommendations` appends; its contract: nothing when the trimmed text starts with "N/A", and at most one entry per link |
| Fields.Authors | src/series/parsing.rs:319-332 | what `parse_authors` appends; its contract: nothing for "N/A", and at most one author per link |
| Fields.Artists | src/series/parsing.rs:334-347 | what `parse_artists` appends; its contract: nothing for "N/A", and at most one artist per link |
| Fields.IdLinksAreLeadingLinks | src/series/parsing.rs:319-332 | entry `k` is link `k`'s id and text, and the list ends at the last link or before the first link without an id |
| Fields.CategoriesAreNamedLinks | src/series/parsing.rs:257-277 | every category is the untrimmed text of a non-blank link of the fetched fragment whose target is no script, taken before the first non-blank link without a target |
| Fields.CategoriesKeepNamedLinks | src/series/parsing.rs:267-274 | conversely, every non-blank link with a non-script target before that stop gives its category |
| Fields.CategoriesStopAtUntargetedLink | src/series/parsing.rs:267-274 | the categories are what the links before the first stop give, and that stop is a non-blank link without a target, so later links are never read |
| Fields.Categories | src/series/parsing.rs:257-277 | what `parse_categories` appends; its contract: an "N/A" block fetches nothing, and there is at most one category per link of the fetched fragment |
| Fields.Recommendations | src/series/parsing.rs:294-317 | what `parse_recommendations` appends; its contract: nothing for "N/A", and at most one recommendation per link of the scope |
| Fields.RecommendationsAreIdLinks | src/series/parsing.rs:294-317 | every recommendation is the id and text of a non-script link before the first link without a target or id |
| Fields.RecommendationsKeepIdLinks | src/series/parsing.rs:305-314 | conversely, every non-script link before that stop names an id and gives its recommendation |
| Fields.RecommendationsStopAtBadLink | src/series/parsing.rs:305-314 | the recommendations are what the links before the first stop give, and that stop is a link without a target or whose target names no id, so later links are never read |
| Fields.PushNames | src/series/parsing.rs:200-207 | the loop appends the kept names of the text nodes |
| Fields.PushTexts | src/series/parsing.rs:229-232 | the loop appends every node's text, in order |
| Fields.PushIdLinks | src/series/parsing.rs:324-329 | the loop appends the leading links that name an id |
| Fields.PushCategories | src/series/parsing.rs:267-274 | the loop skips blank and script links and stops at a link without a target |
| Fields.PushRecommendations | src/series/parsing.rs:305-314 | the loop skips script links and stops at a link without a target or id |
| Fields.ParseAssociatedNames | src/series/parsing.rs:195-208 | appends exactly `AssociatedNames(b)`, and nothing else changes |
| Fields.ParseScanlating | src/series/parsing.rs:210-223 | appends the leading `Group Info` links that name an id, and nothing else changes |
| Fields.ParseStatusInCoo | src/series/parsing.rs:225-233 | appends every text node's text unless the untrimmed text is "N/A", and nothing else changes |
| Fields.ParseAnimeStartEnd | src/series/parsing.rs:235-243 | the same, for the anime start/end lines |
| Fields.ParseGenre | src/series/parsing.rs:251-255 | replaces the genres by all link texts but the last |
| Fields.ParseCategories | src/series/parsing.rs:257-277 | appends the categories of the fragment the client returns for the record's own id, unless the block is "N/A" |
| Fields.ParseCategoryRecommendations | src/series/parsing.rs:279-292 | appends the leading links that name an id, unless the trimmed block starts with "N/A" |
| Fields.ParseRecommendations | src/series/parsing.rs:294-317 | appends the scan of the `div_recom_more` element's links (else the block's), and nothing else changes |
| Fields.ParseAuthors | src/series/parsing.rs:319-332 | appends the leading links that name an id, and nothing else changes |
| Fields.ParseArtists | src/series/parsing.rs:334-347 | the same, for the artists |
| SeriesPage.ParseCol1 | src/series/parsing.rs:100-122 | the step-by-step column decodes field `k` exactly when block `k` exists, and touches no field of the other column |
| SeriesPage.ParseCol2 | src/series/parsing.rs:124-152 | the same, for the twelve fields of the second column |
| SeriesPage.ParseSeries | src/series/parsing.rs:83-98 | the page gives the record built from the first title and the first two columns |
| SeriesPage.Column1 | src/series/parsing.rs:100-122 | what `parse_col_1` does to the record; its contract: the id, the title and every second-column field are untouched, and a column without blocks changes nothing |
| SeriesPage.Column2 | src/series/parsing.rs:124-152 | what `parse_col_2` does to the record; its contract: the id, the title and every first-column field are untouched, and a column without blocks changes nothing |
| SeriesPage.SeriesOf | src/series/parsing.rs:83-98 | what `parse_series` returns; its contract: a read page has a title, and keeps the requested id and the first title's text through both columns |
| SeriesPage.SeriesOfFailsOnlyWithoutLayout | src/series/parsing.rs:84-97 | records the failure rule: a page is unreadable exactly when it has no title or fewer than two columns; a read page keeps the requested id and the title text |
| SeriesPage.PlaceholderBlockDecodes | src/series/parsing.rs:100-417 | a block reading just "N/A" leaves every field at its empty value except the type, which keeps the text "N/A" |
| SeriesPage.Column1OfPlaceholders | src/series/parsing.rs:100-122 | a first column of "N/A" blocks appends nothing, clears the description and "completely scanlated", and sets the type to "N/A" once the second block exists |
| SeriesPage.Column2OfPlaceholders | src/series/parsing.rs:124-152 | a second column of "N/A" blocks appends nothing and clears the image, genres, year, original publisher and licensed flag of the blocks that exist |
| SeriesPage.PlaceholderPage | src/series/parsing.rs:83-152 | a page whose blocks all read "N/A" gives the fresh record for the id and title, with the type "N/A" when the first column has a second block |
| SeriesPage.Column1IgnoresSixthBlock | src/series/parsing.rs:113-114 | the block passed over can hold anything |
| SeriesPage.Column1ReadsNineBlocks | src/series/parsing.rs:100-122 | blocks after the ninth are never read |
| SeriesPage.Column2ReadsTwelveBlocks | src/series/parsing.rs:124-152 | blocks after the twelfth are never read |
| SeriesPage.ColumnsCommute | src/series/parsing.rs:94-95 | the two columns write disjoint fields, so their order does not matter |
| SeriesPage.ClientOnlyFetchesCategories | src/series/parsing.rs:257-265 | when the categories block is missing or reads "N/A", the client's answer makes no difference to the page |

## Left out

- **HTTP.** The client (`src/client.rs`), URL formatting and page fetching are not part of this model. The one fetch inside the core, the categories fragment of `parse_categories`, is a parameter `client: SeriesId -> Document` applied to the record's id. The URL it is built from is not modelled.
- **HTML.** HTML parsing and the `select` crate are not part of this model. Pages are given as abstract trees, and the selector predicates are the five kinds the core uses.
- **Panics become preconditions.** The source can panic in two places:
  - `parse_year_and_rating` slices `[..pos - 1]`, which underflows when a separator is at index 0. `SeparatorsSafe` is required instead.
  - The search loop unwraps a missing `src` on the first image. `ImageSafe` is required instead.
  `ParseSearchResults` requires both only for the containers the loop actually reaches (`Prefixes.Reached`).
- **Character indexing.** Strings are sequences of characters. Rust slices by UTF-8 byte offset, so `pos - 1` in `parse_year_and_rating` is taken as one character before the separator. This is exact for ASCII text around the separators.
- **Machine integers.** `usize` is fixed at 64 bits (`UsizeMax`). The id newtypes `SeriesId`, `GroupId`, `AuthorId` and `PublisherId` are synonyms of the bounded `Usize`.
- **Not modelled:**
  - the record accessors and `Default` derivations of src/series/mod.rs, other than the defaults used by `Records.Fresh`;
  - the module declarations of src/lib.rs.
- **Unit results.** The `Option<()>` results of the column decoders and the list decoders are discarded by their callers, so the model does not return them.
- **Behaviour worth knowing.** The model follows the code in these places:
  - A search container that lacks a part ends the list: its `?` leaves the whole inner function, so every later container is lost too (`SearchPage.SummariesStopAtMalformed`).
  - A column that runs out of blocks keeps the record: the columns' results are ignored, and the record holds what was decoded up to that block (`SeriesPage.SeriesOfFailsOnlyWithoutLayout`). Only a missing title or a missing column returns nothing.
  - When a page has more than two `col-6 p-2` columns, the first two are read and the rest are ignored.
  - The "N/A" test differs by decoder:
    - `parse_category_recommendations` uses `starts_with` on the trimmed text;
    - `parse_status_in_coo` and `parse_anime_start_end` compare the untrimmed text;
    - `parse_image`, `parse_genre` and `parse_licensed` have no test;
    - all others compare the trimmed text exactly.
    - the type block has no test either, so a page whose blocks all read "N/A" has the type "N/A" and every other field empty (`SeriesPage.PlaceholderPage`).
