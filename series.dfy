/**
 * A series page (`parse_series`, `parse_col_1`, `parse_col_2` in
 * src/series/parsing.rs): the title, then two `col-6 p-2` columns whose
 * `sContent` blocks are read in page order, one block per field. A column
 * that runs out of blocks stops there and keeps what it has decoded; only a
 * missing title or a missing column makes the whole page unreadable.
 */
module SeriesPage {
  import opened Wrappers
  import opened Strings
  import opened Dom
  import opened Records
  import opened Fields

  /** The field blocks of a column, in page order (`find(Class("sContent"))`). */
  function Blocks(col: Node): seq<Node>
  {
    Find(col, Class("sContent"))
  }

  /**
   * What `parse_col_1` does to the record, field by field: blocks 0 to 8
   * hold description, type, related series, associated names, scanlating
   * groups, a block that is passed over, status in the country of origin,
   * "completely scanlated" and anime start/end. Reading stops at the first
   * missing block, so a field is decoded exactly when its block exists, and
   * keeps its value otherwise; no other field changes.
   */
  function Column1(bs: seq<Node>, s: Series): (r: Series)
    ensures r.id == s.id && r.title == s.title
    ensures r.image == s.image && r.genre == s.genre && r.categories == s.categories
    ensures r.categoryRecommendations == s.categoryRecommendations && r.recommendations == s.recommendations
    ensures r.authors == s.authors && r.artists == s.artists && r.year == s.year
    ensures r.originalPublisher == s.originalPublisher && r.serializedIn == s.serializedIn
    ensures r.licensed == s.licensed && r.englishPublisher == s.englishPublisher
    ensures bs == [] ==> r == s
  {
    var n := |bs|;
    s.(description := if n > 0 then Description(bs[0]) else s.description,
       ty := if n > 1 then Some(Trim(TextOf(bs[1]))) else s.ty,
       relatedSeries := if n > 2 then s.relatedSeries + Related(bs[2]) else s.relatedSeries,
       associatedNames := if n > 3 then s.associatedNames + AssociatedNames(bs[3]) else s.associatedNames,
       groupsScanlating := if n > 4 then s.groupsScanlating + Scanlators(bs[4]) else s.groupsScanlating,
       statusInCoo := if n > 6 then s.statusInCoo + TextPieces(bs[6]) else s.statusInCoo,
       completelyScanlated := if n > 7 then Trim(TextOf(bs[7])) == "Yes" else s.completelyScanlated,
       animeStartEnd := if n > 8 then s.animeStartEnd + TextPieces(bs[8]) else s.animeStartEnd)
  }

  /**
   * What `parse_col_2` does to the record, field by field: blocks 0 to 11
   * hold image, genre, categories (fetched through `client` for the
   * record's id), category recommendations, recommendations, authors,
   * artists, year, original publisher, serialized in, licensed and English
   * publishers. A field is decoded exactly when its block exists, and keeps
   * its value otherwise; no other field changes.
   */
  function Column2(client: SeriesId -> Document, bs: seq<Node>, s: Series): (r: Series)
    ensures r.id == s.id && r.title == s.title
    ensures r.description == s.description && r.ty == s.ty && r.relatedSeries == s.relatedSeries
    ensures r.associatedNames == s.associatedNames && r.groupsScanlating == s.groupsScanlating
    ensures r.statusInCoo == s.statusInCoo && r.completelyScanlated == s.completelyScanlated
    ensures r.animeStartEnd == s.animeStartEnd
    ensures bs == [] ==> r == s
  {
    var n := |bs|;
    s.(image := if n > 0 then CoverImage(bs[0]) else s.image,
       genre := if n > 1 then Genres(bs[1]) else s.genre,
       categories := if n > 2 then s.categories + Categories(client, s.id, bs[2]) else s.categories,
       categoryRecommendations :=
         if n > 3 then s.categoryRecommendations + CategoryRecommendations(bs[3]) else s.categoryRecommendations,
       recommendations := if n > 4 then s.recommendations + Recommendations(bs[4]) else s.recommendations,
       authors := if n > 5 then s.authors + Authors(bs[5]) else s.authors,
       artists := if n > 6 then s.artists + Artists(bs[6]) else s.artists,
       year := if n > 7 then Year(bs[7]) else s.year,
       originalPublisher := if n > 8 then OriginalPublisher(bs[8]) else s.originalPublisher,
       serializedIn := if n > 9 then s.serializedIn + SerializedIn(bs[9]) else s.serializedIn,
       licensed := if n > 10 then Licensed(bs[10]) else s.licensed,
       englishPublisher := if n > 11 then s.englishPublisher + EnglishPublishers(bs[11]) else s.englishPublisher)
  }

  /** The page's title elements. */
  function Titles(doc: Document): seq<Node>
  {
    FindInDocument(doc, Class("releasestitle"))
  }

  /** The page's two-column layout elements. */
  function Columns(doc: Document): seq<Node>
  {
    FindInDocument(doc, BothClasses("col-6", "p-2"))
  }

  /** What `parse_series` returns for page `doc` of series `id`. */
  function SeriesOf(client: SeriesId -> Document, doc: Document, id: SeriesId): (r: Option<Series>)
    ensures r.Some? ==> Titles(doc) != [] && r.value.id == id && r.value.title == TextOf(Titles(doc)[0])
  {
    var titles := Titles(doc);
    var cols := Columns(doc);
    if titles == [] || |cols| < 2 then None
    else Some(Column2(client, Blocks(cols[1]), Column1(Blocks(cols[0]), Fresh(id, TextOf(titles[0])))))
  }

  // ---- The methods ----

  /** `parse_col_1`. */
  method ParseCol1(col: Node, s: Series) returns (s': Series)
    ensures s' == Column1(Blocks(col), s)
  {
    var contents := Blocks(col);
    s' := s;
    if |contents| < 1 { return; }
    s' := s'.(description := Description(contents[0]));
    if |contents| < 2 { return; }
    s' := s'.(ty := Some(Trim(TextOf(contents[1]))));
    if |contents| < 3 { return; }
    s' := ParseRelated(contents[2], s');
    if |contents| < 4 { return; }
    s' := ParseAssociatedNames(contents[3], s');
    if |contents| < 5 { return; }
    s' := ParseScanlating(contents[4], s');
    // Block 5 is consumed without being read; its absence stops nothing by itself.
    if |contents| < 7 { return; }
    s' := ParseStatusInCoo(contents[6], s');
    if |contents| < 8 { return; }
    s' := s'.(completelyScanlated := Trim(TextOf(contents[7])) == "Yes");
    if |contents| < 9 { return; }
    s' := ParseAnimeStartEnd(contents[8], s');
  }

  /** `parse_col_2`. */
  method ParseCol2(client: SeriesId -> Document, col: Node, s: Series) returns (s': Series)
    ensures s' == Column2(client, Blocks(col), s)
  {
    var contents := Blocks(col);
    s' := s;
    if |contents| < 1 { return; }
    s' := s'.(image := CoverImage(contents[0]));
    if |contents| < 2 { return; }
    s' := ParseGenre(contents[1], s');
    if |contents| < 3 { return; }
    s' := ParseCategories(client, contents[2], s');
    if |contents| < 4 { return; }
    s' := ParseCategoryRecommendations(contents[3], s');
    if |contents| < 5 { return; }
    s' := ParseRecommendations(contents[4], s');
    if |contents| < 6 { return; }
    s' := ParseAuthors(contents[5], s');
    if |contents| < 7 { return; }
    s' := ParseArtists(contents[6], s');
    if |contents| < 8 { return; }
    s' := s'.(year := Year(contents[7]));
    if |contents| < 9 { return; }
    s' := s'.(originalPublisher := OriginalPublisher(contents[8]));
    if |contents| < 10 { return; }
    s' := ParseSerializedIn(contents[9], s');
    if |contents| < 11 { return; }
    s' := s'.(licensed := Licensed(contents[10]));
    if |contents| < 12 { return; }
    s' := ParseEnglishPublisher(contents[11], s');
  }

  /** `parse_series`: the first column is decoded before the second is looked for. */
  method ParseSeries(client: SeriesId -> Document, doc: Document, id: SeriesId) returns (r: Option<Series>)
    ensures r == SeriesOf(client, doc, id)
  {
    var titles := Titles(doc);
    if titles == [] {
      return None;
    }
    var cols := Columns(doc);
    var series := Fresh(id, TextOf(titles[0]));
    if |cols| < 1 {
      return None;
    }
    series := ParseCol1(cols[0], series);
    if |cols| < 2 {
      return None;
    }
    series := ParseCol2(client, cols[1], series);
    r := Some(series);
  }

  // ---- What a parsed page holds ----

  /**
   * A page is unreadable exactly when it has no title or fewer than two
   * columns; short or malformed columns never make it unreadable. A read
   * page keeps the id asked for and the first title's text.
   */
  lemma SeriesOfFailsOnlyWithoutLayout(client: SeriesId -> Document, doc: Document, id: SeriesId)
    ensures SeriesOf(client, doc, id).None? <==> Titles(doc) == [] || |Columns(doc)| < 2
    ensures SeriesOf(client, doc, id).Some? ==>
      SeriesOf(client, doc, id).value.id == id && SeriesOf(client, doc, id).value.title == TextOf(Titles(doc)[0])
  {
    var cols := Columns(doc);
    if Titles(doc) != [] && |cols| >= 2 {
      var start := Fresh(id, TextOf(Titles(doc)[0]));
    }
  }

  /** The block the first column passes over can hold anything. */
  lemma Column1IgnoresSixthBlock(bs: seq<Node>, s: Series, other: Node)
    requires |bs| > 5
    ensures Column1(bs[5 := other], s) == Column1(bs, s)
  {
  }

  /** Blocks after the ninth are never read by the first column. */
  lemma Column1ReadsNineBlocks(bs: seq<Node>, more: seq<Node>, s: Series)
    requires |bs| >= 9
    ensures Column1(bs + more, s) == Column1(bs, s)
  {
    var cs := bs + more;
    assert cs[0] == bs[0] && cs[1] == bs[1] && cs[2] == bs[2] && cs[3] == bs[3] && cs[4] == bs[4];
    assert cs[6] == bs[6] && cs[7] == bs[7] && cs[8] == bs[8];
  }

  /** Blocks after the twelfth are never read by the second column. */
  lemma Column2ReadsTwelveBlocks(client: SeriesId -> Document, bs: seq<Node>, more: seq<Node>, s: Series)
    requires |bs| >= 12
    ensures Column2(client, bs + more, s) == Column2(client, bs, s)
  {
    var cs := bs + more;
    assert cs[0] == bs[0] && cs[1] == bs[1] && cs[2] == bs[2] && cs[3] == bs[3] && cs[4] == bs[4] && cs[5] == bs[5];
    assert cs[6] == bs[6] && cs[7] == bs[7] && cs[8] == bs[8] && cs[9] == bs[9] && cs[10] == bs[10] && cs[11] == bs[11];
  }

  /** The two columns write disjoint fields: decoding them in either order gives the same record. */
  lemma ColumnsCommute(client: SeriesId -> Document, c1: seq<Node>, c2: seq<Node>, s: Series)
    ensures Column2(client, c2, Column1(c1, s)) == Column1(c1, Column2(client, c2, s))
  {
  }

  /**
   * The client is only asked for the categories fragment: when the
   * categories block is missing or reads "N/A", what the client would
   * return makes no difference to the page.
   */
  lemma ClientOnlyFetchesCategories(c: SeriesId -> Document, d: SeriesId -> Document, doc: Document, id: SeriesId)
    requires |Columns(doc)| >= 2
    requires var c2 := Blocks(Columns(doc)[1]); |c2| <= 2 || IsNotAvailable(c2[2])
    ensures SeriesOf(c, doc, id) == SeriesOf(d, doc, id)
  {
  }

  /** A field block that holds nothing but the placeholder text. */
  function PlaceholderBlock(): Node
  {
    Element("div", ["sContent"], [], [Text(NotAvailable)])
  }

  /**
   * Every decoder leaves its field empty on a placeholder block; the type,
   * which is copied without a placeholder test, is the one exception.
   */
  lemma PlaceholderBlockDecodes(client: SeriesId -> Document, id: SeriesId)
    ensures var b := PlaceholderBlock();
      Description(b).None? && Trim(TextOf(b)) == NotAvailable && Related(b) == [] && AssociatedNames(b) == [] &&
      Scanlators(b) == [] && TextPieces(b) == [] && Trim(TextOf(b)) != "Yes"
    ensures var b := PlaceholderBlock();
      CoverImage(b).None? && Genres(b) == [] && Categories(client, id, b) == [] && CategoryRecommendations(b) == [] &&
      Recommendations(b) == [] && Authors(b) == [] && Artists(b) == [] && Year(b).None? &&
      OriginalPublisher(b).None? && SerializedIn(b) == [] && !Licensed(b) && EnglishPublishers(b) == []
  {
    var b := PlaceholderBlock();
    assert TextOf(b) == NotAvailable by {
      assert TextOfAll([Text(NotAvailable)][1..]) == [];
    }
    TrimmedIsFixed(NotAvailable);
    assert StartsWith(Trim(TextOf(b)), NotAvailable);
    assert Find(b, Name("img")) == [] && Find(b, Name("a")) == [];
  }

  /** A first column of placeholders overwrites the description, type and "completely scanlated" and appends nothing. */
  lemma Column1OfPlaceholders(bs: seq<Node>, s: Series)
    requires forall k | 0 <= k < |bs| :: bs[k] == PlaceholderBlock()
    ensures Column1(bs, s) ==
      s.(description := if |bs| > 0 then None else s.description,
         ty := if |bs| > 1 then Some(NotAvailable) else s.ty,
         completelyScanlated := if |bs| > 7 then false else s.completelyScanlated)
  {
    PlaceholderBlockDecodes(_ => Document([]), s.id);
    assert s.relatedSeries + [] == s.relatedSeries && s.associatedNames + [] == s.associatedNames;
    assert s.groupsScanlating + [] == s.groupsScanlating && s.statusInCoo + [] == s.statusInCoo;
    assert s.animeStartEnd + [] == s.animeStartEnd;
  }

  /** A second column of placeholders clears the value fields it reads and appends nothing. */
  lemma Column2OfPlaceholders(client: SeriesId -> Document, bs: seq<Node>, s: Series)
    requires forall k | 0 <= k < |bs| :: bs[k] == PlaceholderBlock()
    ensures Column2(client, bs, s) ==
      s.(image := if |bs| > 0 then None else s.image,
         genre := if |bs| > 1 then [] else s.genre,
         year := if |bs| > 7 then None else s.year,
         originalPublisher := if |bs| > 8 then None else s.originalPublisher,
         licensed := if |bs| > 10 then false else s.licensed)
  {
    PlaceholderBlockDecodes(client, s.id);
    assert s.categories + [] == s.categories && s.categoryRecommendations + [] == s.categoryRecommendations;
    assert s.recommendations + [] == s.recommendations && s.authors + [] == s.authors;
    assert s.artists + [] == s.artists && s.serializedIn + [] == s.serializedIn;
    assert s.englishPublisher + [] == s.englishPublisher;
  }

  /**
   * A page whose blocks all read "N/A" gives the record `parse_series`
   * starts from, except for the type, which the first column copies from
   * its second block as it reads.
   */
  lemma PlaceholderPage(client: SeriesId -> Document, doc: Document, id: SeriesId)
    requires Titles(doc) != [] && |Columns(doc)| >= 2
    requires forall b | b in Blocks(Columns(doc)[0]) :: b == PlaceholderBlock()
    requires forall b | b in Blocks(Columns(doc)[1]) :: b == PlaceholderBlock()
    ensures SeriesOf(client, doc, id) ==
      Some(Fresh(id, TextOf(Titles(doc)[0])).(ty := if |Blocks(Columns(doc)[0])| > 1 then Some(NotAvailable) else None))
  {
    var c1, c2 := Blocks(Columns(doc)[0]), Blocks(Columns(doc)[1]);
    forall k | 0 <= k < |c1| ensures c1[k] == PlaceholderBlock() {
      assert c1[k] in c1;
    }
    forall k | 0 <= k < |c2| ensures c2[k] == PlaceholderBlock() {
      assert c2[k] in c2;
    }
    var start := Fresh(id, TextOf(Titles(doc)[0]));
    Column1OfPlaceholders(c1, start);
    Column2OfPlaceholders(client, c2, Column1(c1, start));
  }
}
