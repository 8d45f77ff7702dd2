/**
 * The per-field decoders of a series page (src/series/parsing.rs). Each
 * takes one `sContent` block of the page. The decoders that return a value
 * are functions; those that push into a list of the series record through
 * `&mut Series` are methods that take the record and return it updated,
 * each proved against a function stating what it appends.
 */
module Fields {
  import opened Wrappers
  import opened Strings
  import opened Ids
  import opened Dom
  import opened Records
  import opened Prefixes

  /** The placeholder the site shows for a field it has no data for. */
  const NotAvailable: string := "N/A"

  /** `node.text().trim() == "N/A"`: most decoders leave their field alone on such a block. */
  predicate IsNotAvailable(b: Node)
  {
    Trim(TextOf(b)) == NotAvailable
  }

  /** The text of each node, in order (`map(|n| n.text())`). */
  function Texts(ns: seq<Node>): (r: seq<string>)
    ensures |r| == |ns|
  {
    if ns == [] then [] else [TextOf(ns[0])] + Texts(ns[1..])
  }

  /** The strings joined end to end. */
  function Concat(ss: seq<string>): string
  {
    if ss == [] then [] else ss[0] + Concat(ss[1..])
  }

  lemma {:induction false} TextsAt(ns: seq<Node>)
    ensures forall i :: 0 <= i < |ns| ==> Texts(ns)[i] == TextOf(ns[i])
  {
    if ns != [] {
      TextsAt(ns[1..]);
      forall i | 0 <= i < |ns| ensures Texts(ns)[i] == TextOf(ns[i]) {
        if i > 0 {
          assert ns[i] == ns[1..][i - 1];
        }
      }
    }
  }

  lemma {:induction false} ConcatTexts(ns: seq<Node>)
    ensures Concat(Texts(ns)) == TextOfAll(ns)
  {
    if ns != [] {
      ConcatTexts(ns[1..]);
    }
  }

  // ---- Decoders that return a value ----

  /**
   * `parse_description`: nothing for "N/A"; otherwise the trimmed text of the
   * first child of the `div_desc_more` element when there is one (nothing if
   * that element has no child), else of the whole block; nothing if that is blank.
   */
  function Description(b: Node): (r: Option<string>)
    ensures IsNotAvailable(b) ==> r.None?
    ensures r.Some? ==> r.value != []
  {
    if IsNotAvailable(b) then None
    else
      var more := Find(b, AttrIs("id", "div_desc_more"));
      var raw := if more == [] then Some(TextOf(b))
                 else match FirstChild(more[0])
                   case None => None
                   case Some(c) => Some(TextOf(c));
      match raw
      case None => None
      case Some(text) => if Trim(text) == [] then None else Some(Trim(text))
  }

  /** A description is never blank and never carries surrounding whitespace. */
  lemma DescriptionIsTrimmed(b: Node)
    ensures Description(b).Some? ==>
      Description(b).value != [] && Trim(Description(b).value) == Description(b).value
  {
    if Description(b).Some? {
      var v := Description(b).value;
      assert exists text :: v == Trim(text);
      var text :| v == Trim(text);
      TrimIdempotent(text);
    }
  }

  /** When the block has a `div_desc_more` element, only its first child's text counts. */
  lemma DescriptionPrefersFullText(b: Node, c: Node)
    requires !IsNotAvailable(b)
    requires Find(b, AttrIs("id", "div_desc_more")) != []
    requires FirstChild(Find(b, AttrIs("id", "div_desc_more"))[0]) == Some(c)
    ensures Description(b) == (if Trim(TextOf(c)) == [] then None else Some(Trim(TextOf(c))))
  {
  }

  /** A `div_desc_more` element without children leaves the description absent. */
  lemma DescriptionOfChildlessMore(b: Node)
    requires Find(b, AttrIs("id", "div_desc_more")) != []
    requires Children(Find(b, AttrIs("id", "div_desc_more"))[0]) == []
    ensures Description(b) == None
  {
  }

  /** Without a `div_desc_more` element, the block's own text, trimmed, is the description. */
  lemma DescriptionOfPlainBlock(b: Node)
    requires !IsNotAvailable(b)
    requires Find(b, AttrIs("id", "div_desc_more")) == []
    ensures Description(b) == (if Trim(TextOf(b)) == [] then None else Some(Trim(TextOf(b))))
  {
  }

  /** `parse_image`: the `src` of the first image of the block. */
  function CoverImage(b: Node): (r: Option<string>)
    ensures r.Some? ==> Find(b, Name("img")) != []
  {
    var imgs := Find(b, Name("img"));
    if imgs == [] then None else GetAttr(imgs[0], "src")
  }

  /** Only the first image is looked at: a later image's `src` is never taken. */
  lemma CoverImageIsFirstImage(b: Node)
    ensures CoverImage(b).Some? <==>
      Find(b, Name("img")) != [] && GetAttr(Find(b, Name("img"))[0], "src").Some?
    ensures CoverImage(b).Some? ==> Attribute("src", CoverImage(b).value) in Find(b, Name("img"))[0].attrs
  {
  }

  /** `parse_year`: the trimmed text, unless it is "N/A". */
  function Year(b: Node): (r: Option<string>)
    ensures r.None? <==> IsNotAvailable(b)
  {
    if IsNotAvailable(b) then None else Some(Trim(TextOf(b)))
  }

  /** A year never carries surrounding whitespace, and whitespace around the text does not matter. */
  lemma YearIsTrimmed(b: Node, pre: string, core: string, post: string)
    requires TextOf(b) == pre + core + post
    requires forall i :: 0 <= i < |pre| ==> IsWhitespace(pre[i])
    requires forall i :: 0 <= i < |post| ==> IsWhitespace(post[i])
    requires core == [] || (!IsWhitespace(core[0]) && !IsWhitespace(core[|core| - 1]))
    ensures Year(b) == if core == NotAvailable then None else Some(core)
  {
    TrimPadded(pre, core, post);
  }

  /** `get_id(link.attr("href"))` paired with the link's text. */
  function IdLink(a: Node): (r: Option<(Usize, string)>)
    ensures r.Some? <==> GetId(GetAttr(a, "href")).Some?
  {
    match GetId(GetAttr(a, "href"))
    case None => None
    case Some(id) => Some((id, TextOf(a)))
  }

  /** `parse_original_publisher`: the id and text of the first link, unless the block is "N/A". */
  function OriginalPublisher(b: Node): (r: Option<(PublisherId, string)>)
    ensures r.Some? ==> !IsNotAvailable(b) && Find(b, Name("a")) != []
  {
    if IsNotAvailable(b) then None
    else
      var links := Find(b, Name("a"));
      if links == [] then None else IdLink(links[0])
  }

  /** The publisher is the first link's, and its id is the one its target names. */
  lemma OriginalPublisherIsFirstLink(b: Node)
    ensures OriginalPublisher(b).Some? <==>
      !IsNotAvailable(b) && Find(b, Name("a")) != [] && GetId(GetAttr(Find(b, Name("a"))[0], "href")).Some?
    ensures OriginalPublisher(b).Some? ==>
      var link := Find(b, Name("a"))[0];
      OriginalPublisher(b).value == (GetId(GetAttr(link, "href")).value, TextOf(link))
  {
  }

  /** `parse_licensed`: the trimmed text is exactly "Yes". */
  function Licensed(b: Node): (r: bool)
    ensures r ==> !IsNotAvailable(b)
  {
    Trim(TextOf(b)) == "Yes"
  }

  /** Whitespace around "Yes" still reads as licensed; any other word does not. */
  lemma LicensedIgnoresPadding(b: Node, pre: string, core: string, post: string)
    requires TextOf(b) == pre + core + post
    requires forall i :: 0 <= i < |pre| ==> IsWhitespace(pre[i])
    requires forall i :: 0 <= i < |post| ==> IsWhitespace(post[i])
    requires core == [] || (!IsWhitespace(core[0]) && !IsWhitespace(core[|core| - 1]))
    ensures Licensed(b) <==> core == "Yes"
  {
    TrimPadded(pre, core, post);
  }

  // ---- Children read in groups of three ----

  /**
   * The `(first, second)` children of each group of three, while both exist:
   * the loops of `parse_related`, `parse_serialized_in` and
   * `parse_english_publisher` read two children and skip one.
   */
  function Pairs(cs: seq<Node>): seq<(Node, Node)>
  {
    if |cs| < 2 then []
    else [(cs[0], cs[1])] + Pairs(cs[if |cs| < 3 then |cs| else 3..])
  }

  /** Where the cursor stands after reading a group from `pos`. */
  function NextGroup(cs: seq<Node>, pos: nat): (next: nat)
    requires pos + 2 <= |cs|
    ensures pos < next <= |cs|
  {
    if pos + 3 <= |cs| then pos + 3 else |cs|
  }

  /** Group `k` is made of children `3k` and `3k + 1`, and a trailing single child is dropped. */
  lemma {:induction false} PairsAt(cs: seq<Node>)
    ensures |Pairs(cs)| == (|cs| + 1) / 3
    ensures forall k :: 0 <= k < |Pairs(cs)| ==> Pairs(cs)[k] == (cs[3 * k], cs[3 * k + 1])
  {
    if |cs| >= 3 {
      PairsAt(cs[3..]);
      forall k | 0 <= k < |Pairs(cs)| ensures Pairs(cs)[k] == (cs[3 * k], cs[3 * k + 1]) {
        if k > 0 {
          assert Pairs(cs)[k] == Pairs(cs[3..])[k - 1];
          assert cs[3..][3 * (k - 1)] == cs[3 * k] && cs[3..][3 * (k - 1) + 1] == cs[3 * k + 1];
        }
      }
    }
  }

  /** One pass of a group loop from the cursor `pos`. */
  lemma PairsNext<R>(cs: seq<Node>, pos: nat, f: ((Node, Node)) -> Option<R>)
    requires pos <= |cs|
    ensures pos + 2 > |cs| ==> LeadingSome(Pairs(cs[pos..]), f) == []
    ensures pos + 2 <= |cs| ==> Pairs(cs[pos..]) != [] && Pairs(cs[pos..])[0] == (cs[pos], cs[pos + 1])
    ensures pos + 2 <= |cs| && f((cs[pos], cs[pos + 1])).None? ==> LeadingSome(Pairs(cs[pos..]), f) == []
    ensures pos + 2 <= |cs| && f((cs[pos], cs[pos + 1])).Some? ==>
      LeadingSome(Pairs(cs[pos..]), f) ==
        [f((cs[pos], cs[pos + 1])).value] + LeadingSome(Pairs(cs[NextGroup(cs, pos)..]), f)
  {
    var ps := Pairs(cs[pos..]);
    if pos + 2 <= |cs| {
      assert cs[pos..][0] == cs[pos] && cs[pos..][1] == cs[pos + 1];
      assert cs[pos..][if |cs| - pos < 3 then |cs| - pos else 3..] == cs[NextGroup(cs, pos)..];
      assert ps[1..] == Pairs(cs[NextGroup(cs, pos)..]);
      LeadingSomeNext(ps, f, 0);
      assert ps[0..] == ps;
    } else {
      ReachedTotal(ps, f);
    }
  }

  /** `parse_related`'s entry: the link's series id, its text and the text of the next child. */
  function RelatedEntry(p: (Node, Node)): Option<(SeriesId, string, string)>
  {
    match GetId(GetAttr(p.0, "href"))
    case None => None
    case Some(id) => Some((id, TextOf(p.0), TextOf(p.1)))
  }

  /** `parse_serialized_in`'s entry: the first child's text and the second's, trimmed. */
  function SerializedEntry(p: (Node, Node)): Option<(string, string)>
  {
    Some((TextOf(p.0), Trim(TextOf(p.1))))
  }

  /** `parse_english_publisher`'s entry: the link's publisher id, its text and a non-blank note. */
  function PublisherEntry(p: (Node, Node)): Option<(PublisherId, string, Option<string>)>
  {
    match GetId(GetAttr(p.0, "href"))
    case None => None
    case Some(id) => Some((id, TextOf(p.0), Note(TextOf(p.1))))
  }

  /** An English publisher's note: the trimmed text, unless it is blank. */
  function Note(extra: string): Option<string>
  {
    var note := Trim(extra);
    if note == [] then None else Some(note)
  }

  /** What `parse_related` appends: the groups up to the first whose link names no id. */
  function Related(b: Node): (r: seq<(SeriesId, string, string)>)
    ensures IsNotAvailable(b) ==> r == []
    ensures |r| <= (|Children(b)| + 1) / 3
  {
    if IsNotAvailable(b) then []
    else
      PairsAt(Children(b));
      LeadingSome(Pairs(Children(b)), RelatedEntry)
  }

  /** What `parse_serialized_in` appends: one entry per complete group. */
  function SerializedIn(b: Node): (r: seq<(string, string)>)
    ensures IsNotAvailable(b) ==> r == []
    ensures |r| <= (|Children(b)| + 1) / 3
  {
    if IsNotAvailable(b) then []
    else
      PairsAt(Children(b));
      LeadingSome(Pairs(Children(b)), SerializedEntry)
  }

  /** What `parse_english_publisher` appends: the groups up to the first whose link names no id. */
  function EnglishPublishers(b: Node): (r: seq<(PublisherId, string, Option<string>)>)
    ensures IsNotAvailable(b) ==> r == []
    ensures |r| <= (|Children(b)| + 1) / 3
  {
    if IsNotAvailable(b) then []
    else
      PairsAt(Children(b));
      LeadingSome(Pairs(Children(b)), PublisherEntry)
  }

  /**
   * Related series: entry `k` is the id and text of child `3k` and the text of
   * child `3k + 1`, and the list ends at the last complete group or just
   * before the first group whose link has no parsable id.
   */
  lemma RelatedAreLeadingGroups(b: Node)
    requires !IsNotAvailable(b)
    ensures var cs := Children(b);
      && |Related(b)| <= (|cs| + 1) / 3
      && (forall k :: 0 <= k < |Related(b)| ==>
            GetId(GetAttr(cs[3 * k], "href")) == Some(Related(b)[k].0)
            && Related(b)[k].1 == TextOf(cs[3 * k]) && Related(b)[k].2 == TextOf(cs[3 * k + 1]))
      && (|Related(b)| < (|cs| + 1) / 3 ==> GetId(GetAttr(cs[3 * |Related(b)|], "href")).None?)
  {
    var cs := Children(b);
    var ps := Pairs(cs);
    PairsAt(cs);
    ReachedTotal(ps, RelatedEntry);
    TakeWhileSomeIsLeadingRun(ps, RelatedEntry);
  }

  /** Serialized-in: one entry per complete group, whatever the children hold. */
  lemma SerializedInIsEveryGroup(b: Node)
    requires !IsNotAvailable(b)
    ensures |SerializedIn(b)| == (|Children(b)| + 1) / 3
  {
    var cs := Children(b);
    PairsAt(cs);
    LeadingSomeOfTotal(Pairs(cs), SerializedEntry);
  }

  /** Serialized-in entry `k`: the text of child `3k` as is, and the text of child `3k + 1` trimmed. */
  lemma SerializedInEntries(b: Node, k: nat)
    requires !IsNotAvailable(b)
    requires k < |SerializedIn(b)|
    ensures 3 * k + 1 < |Children(b)|
    ensures SerializedIn(b)[k] == (TextOf(Children(b)[3 * k]), Trim(TextOf(Children(b)[3 * k + 1])))
  {
    var cs := Children(b);
    PairsAt(cs);
    LeadingSomeOfTotal(Pairs(cs), SerializedEntry);
  }

  /** English publishers: a note is present exactly when the second child's text is not blank. */
  lemma EnglishPublisherNotes(b: Node)
    requires !IsNotAvailable(b)
    ensures var cs := Children(b);
      && |EnglishPublishers(b)| <= (|cs| + 1) / 3
      && forall k :: 0 <= k < |EnglishPublishers(b)| ==>
           var note := Trim(TextOf(cs[3 * k + 1]));
           && GetId(GetAttr(cs[3 * k], "href")) == Some(EnglishPublishers(b)[k].0)
           && EnglishPublishers(b)[k].1 == TextOf(cs[3 * k])
           && (EnglishPublishers(b)[k].2.None? <==> note == [])
           && (EnglishPublishers(b)[k].2.Some? ==> EnglishPublishers(b)[k].2.value == note)
  {
    var cs := Children(b);
    var ps := Pairs(cs);
    PairsAt(cs);
    ReachedTotal(ps, PublisherEntry);
    TakeWhileSomeIsLeadingRun(ps, PublisherEntry);
  }

  /**
   * English publishers are read group by group until one fails: the list
   * ends at the last complete group, or just before the first group whose
   * link names no id (with `EnglishPublisherNotes`, every earlier group
   * gives its entry).
   */
  lemma EnglishPublishersStop(b: Node)
    requires !IsNotAvailable(b)
    ensures var cs := Children(b);
      |EnglishPublishers(b)| < (|cs| + 1) / 3 ==> GetId(GetAttr(cs[3 * |EnglishPublishers(b)|], "href")).None?
  {
    var cs := Children(b);
    var ps := Pairs(cs);
    PairsAt(cs);
    ReachedTotal(ps, PublisherEntry);
    TakeWhileSomeIsLeadingRun(ps, PublisherEntry);
  }

  /** `parse_related`. */
  method ParseRelated(b: Node, s: Series) returns (s': Series)
    ensures s' == s.(relatedSeries := s.relatedSeries + Related(b))
  {
    if IsNotAvailable(b) {
      assert s.relatedSeries + [] == s.relatedSeries;
      return s;
    }
    var related := PushRelated(Children(b), s.relatedSeries);
    s' := s.(relatedSeries := related);
  }

  /** The loop of `parse_related`, pushing onto `list`. */
  method PushRelated(children: seq<Node>, list: seq<(SeriesId, string, string)>)
    returns (list': seq<(SeriesId, string, string)>)
    ensures list' == list + LeadingSome(Pairs(children), RelatedEntry)
  {
    list' := list;
    var pos := 0;
    assert children[pos..] == children;
    while true
      invariant pos <= |children|
      invariant list' + LeadingSome(Pairs(children[pos..]), RelatedEntry) == list + LeadingSome(Pairs(children), RelatedEntry)
      decreases |children| - pos
    {
      PairsNext(children, pos, RelatedEntry);
      if pos >= |children| {
        assert list' + [] == list';
        return;
      }
      var link := children[pos];
      if pos + 1 >= |children| {
        assert list' + [] == list';
        return;
      }
      var extra := TextOf(children[pos + 1]);
      var id := GetId(GetAttr(link, "href"));
      if id.None? {
        assert list' + [] == list';
        return;
      }
      list' := list' + [(id.value, TextOf(link), extra)];
      pos := if pos + 3 <= |children| then pos + 3 else |children|;
    }
  }

  /** `parse_serialized_in`. */
  method ParseSerializedIn(b: Node, s: Series) returns (s': Series)
    ensures s' == s.(serializedIn := s.serializedIn + SerializedIn(b))
  {
    if IsNotAvailable(b) {
      assert s.serializedIn + [] == s.serializedIn;
      return s;
    }
    var serialized := PushSerializedIn(Children(b), s.serializedIn);
    s' := s.(serializedIn := serialized);
  }

  /** The loop of `parse_serialized_in`, pushing onto `list`. */
  method PushSerializedIn(children: seq<Node>, list: seq<(string, string)>) returns (list': seq<(string, string)>)
    ensures list' == list + LeadingSome(Pairs(children), SerializedEntry)
  {
    list' := list;
    var pos := 0;
    assert children[pos..] == children;
    while true
      invariant pos <= |children|
      invariant list' + LeadingSome(Pairs(children[pos..]), SerializedEntry) == list + LeadingSome(Pairs(children), SerializedEntry)
      decreases |children| - pos
    {
      PairsNext(children, pos, SerializedEntry);
      if pos >= |children| {
        assert list' + [] == list';
        return;
      }
      var name := TextOf(children[pos]);
      if pos + 1 >= |children| {
        assert list' + [] == list';
        return;
      }
      var extra := TextOf(children[pos + 1]);
      assert SerializedEntry((children[pos], children[pos + 1])) == Some((name, Trim(extra)));
      list' := list' + [(name, Trim(extra))];
      pos := if pos + 3 <= |children| then pos + 3 else |children|;
    }
  }

  /** `parse_english_publisher`. */
  method ParseEnglishPublisher(b: Node, s: Series) returns (s': Series)
    ensures s' == s.(englishPublisher := s.englishPublisher + EnglishPublishers(b))
  {
    if IsNotAvailable(b) {
      assert s.englishPublisher + [] == s.englishPublisher;
      return s;
    }
    var publishers := PushEnglishPublishers(Children(b), s.englishPublisher);
    s' := s.(englishPublisher := publishers);
  }

  /** The loop of `parse_english_publisher`, pushing onto `list`. */
  method PushEnglishPublishers(children: seq<Node>, list: seq<(PublisherId, string, Option<string>)>)
    returns (list': seq<(PublisherId, string, Option<string>)>)
    ensures list' == list + LeadingSome(Pairs(children), PublisherEntry)
  {
    list' := list;
    var pos := 0;
    assert children[pos..] == children;
    while true
      invariant pos <= |children|
      invariant list' + LeadingSome(Pairs(children[pos..]), PublisherEntry) == list + LeadingSome(Pairs(children), PublisherEntry)
      decreases |children| - pos
    {
      PairsNext(children, pos, PublisherEntry);
      if pos >= |children| {
        assert list' + [] == list';
        return;
      }
      var link := children[pos];
      if pos + 1 >= |children| {
        assert list' + [] == list';
        return;
      }
      var extra := TextOf(children[pos + 1]);
      var id := GetId(GetAttr(link, "href"));
      if id.None? {
        assert list' + [] == list';
        return;
      }
      list' := list' + [(id.value, TextOf(link), Note(extra))];
      pos := if pos + 3 <= |children| then pos + 3 else |children|;
    }
  }

  // ---- Decoders over the block's text nodes ----

  /** `parse_associated_names`'s step: a text node's trimmed text, unless blank or "N/A". */
  function NameStep(t: Node): Step<string>
  {
    var name := Trim(TextOf(t));
    if name != [] && name != NotAvailable then Keep(name) else Skip
  }

  /** What `parse_associated_names` appends. */
  function AssociatedNames(b: Node): (r: seq<string>)
    ensures IsNotAvailable(b) ==> r == []
    ensures |r| <= |Find(b, IsText)|
  {
    if IsNotAvailable(b) then [] else Kept(Find(b, IsText), NameStep)
  }

  /**
   * Associated names are exactly the trimmed texts of the block's text nodes
   * that are neither blank nor "N/A"; none carries surrounding whitespace.
   */
  lemma AssociatedNamesAreCleanTexts(b: Node)
    requires !IsNotAvailable(b)
    ensures var ts := Find(b, IsText);
      forall n :: n in AssociatedNames(b) ==>
        n != [] && n != NotAvailable && Trim(n) == n
        && exists i :: 0 <= i < |ts| && Trim(TextOf(ts[i])) == n
    ensures var ts := Find(b, IsText);
      forall i :: 0 <= i < |ts| && Trim(TextOf(ts[i])) != [] && Trim(TextOf(ts[i])) != NotAvailable ==>
        Trim(TextOf(ts[i])) in AssociatedNames(b)
  {
    var ts := Find(b, IsText);
    KeptMembers(ts, NameStep);
    forall n | n in AssociatedNames(b)
      ensures n != [] && n != NotAvailable && Trim(n) == n
      ensures exists i :: 0 <= i < |ts| && Trim(TextOf(ts[i])) == n
    {
      var i :| 0 <= i < |ts| && NameStep(ts[i]) == Keep(n);
      TrimIdempotent(TextOf(ts[i]));
    }
    forall i | 0 <= i < |ts| && Trim(TextOf(ts[i])) != [] && Trim(TextOf(ts[i])) != NotAvailable
      ensures Trim(TextOf(ts[i])) in AssociatedNames(b)
    {
      assert NameStep(ts[i]).Keep?;
    }
  }

  /**
   * What `parse_status_in_coo` and `parse_anime_start_end` append: the text
   * of every text node, unless the untrimmed text is exactly "N/A".
   */
  function TextPieces(b: Node): seq<string>
  {
    if TextOf(b) == NotAvailable then [] else Texts(Find(b, IsText))
  }

  /** The pieces, joined, give back the block's whole text: nothing is lost or trimmed. */
  lemma TextPiecesSpellText(b: Node)
    requires b.Element? && TextOf(b) != NotAvailable
    ensures Concat(TextPieces(b)) == TextOf(b)
  {
    ConcatTexts(Find(b, IsText));
    TextIsTextDescendants(b);
  }

  /** Only the exact text "N/A" is a placeholder here: " N/A" is kept as a piece. */
  lemma TextPiecesKeepPaddedPlaceholder(b: Node)
    requires b.Element? && b.children == [Text(" N/A")]
    ensures TextPieces(b) == [" N/A"]
  {
    var t := Text(" N/A");
    assert TextOf(b) == " N/A" by {
      assert b.children[0] == t && b.children[1..] == [];
      assert TextOfAll(b.children) == TextOf(t) + TextOfAll([]);
    }
    assert TextOf(b) != NotAvailable by {
      assert |TextOf(b)| != |NotAvailable|;
    }
    assert Preorder(b.children) == [t] by {
      assert b.children[1..] == [];
    }
    assert Find(b, IsText) == [t] by {
      assert [t][1..] == [];
    }
  }

  /** What `parse_genre` leaves: the text of every link but the last. */
  function Genres(b: Node): (r: seq<string>)
    ensures |r| == if Find(b, Name("a")) == [] then 0 else |Find(b, Name("a"))| - 1
  {
    var all := Texts(Find(b, Name("a")));
    if all == [] then [] else all[..|all| - 1]
  }

  /** One genre per link except the last, in link order. */
  lemma GenresDropLastLink(b: Node)
    ensures var links := Find(b, Name("a"));
      && |Genres(b)| == (if links == [] then 0 else |links| - 1)
      && forall i :: 0 <= i < |Genres(b)| ==> Genres(b)[i] == TextOf(links[i])
  {
    TextsAt(Find(b, Name("a")));
  }

  // ---- Decoders over the block's links ----

  /** What `parse_scanlating` appends: the `Group Info` links up to the first without an id. */
  function Scanlators(b: Node): (r: seq<(GroupId, string)>)
    ensures IsNotAvailable(b) ==> r == []
    ensures |r| <= |Find(b, AttrIs("title", "Group Info"))|
  {
    if IsNotAvailable(b) then [] else LeadingSome(Find(b, AttrIs("title", "Group Info")), IdLink)
  }

  /** What `parse_category_recommendations` appends: its placeholder test is a prefix test. */
  function CategoryRecommendations(b: Node): (r: seq<(SeriesId, string)>)
    ensures StartsWith(Trim(TextOf(b)), NotAvailable) ==> r == []
    ensures |r| <= |Find(b, Name("a"))|
  {
    if StartsWith(Trim(TextOf(b)), NotAvailable) then [] else LeadingSome(Find(b, Name("a")), IdLink)
  }

  /** What `parse_authors` appends. */
  function Authors(b: Node): (r: seq<(AuthorId, string)>)
    ensures IsNotAvailable(b) ==> r == []
    ensures |r| <= |Find(b, Name("a"))|
  {
    if IsNotAvailable(b) then [] else LeadingSome(Find(b, Name("a")), IdLink)
  }

  /** What `parse_artists` appends (the same reading as the authors block). */
  function Artists(b: Node): (r: seq<(AuthorId, string)>)
    ensures IsNotAvailable(b) ==> r == []
    ensures |r| <= |Find(b, Name("a"))|
  {
    if IsNotAvailable(b) then [] else LeadingSome(Find(b, Name("a")), IdLink)
  }

  /**
   * A list read by `?` over links: entry `k` is link `k`'s id and text, and
   * the list ends at the last link or just before the first link without an id.
   */
  lemma IdLinksAreLeadingLinks(links: seq<Node>)
    ensures var r := LeadingSome(links, IdLink);
      && |r| <= |links|
      && (forall k :: 0 <= k < |r| ==> GetId(GetAttr(links[k], "href")) == Some(r[k].0) && r[k].1 == TextOf(links[k]))
      && (|r| < |links| ==> GetId(GetAttr(links[|r|], "href")).None?)
  {
    ReachedTotal(links, IdLink);
    TakeWhileSomeIsLeadingRun(links, IdLink);
  }

  /** `parse_categories`' step: skip blank links and script links, stop at a link without a target. */
  function CategoryStep(a: Node): Step<string>
  {
    if Trim(TextOf(a)) == [] then Skip
    else match GetAttr(a, "href")
      case None => Stop
      case Some(h) => if StartsWith(h, "javascript") then Skip else Keep(TextOf(a))
  }

  /**
   * What `parse_categories` appends: the fragment the client fetches for
   * series `id` is read link by link; a placeholder block fetches nothing.
   */
  function Categories(client: SeriesId -> Document, id: SeriesId, b: Node): (r: seq<string>)
    ensures IsNotAvailable(b) ==> r == []
    ensures |r| <= |FindInDocument(client(id), Name("a"))|
  {
    if IsNotAvailable(b) then [] else Scan(FindInDocument(client(id), Name("a")), CategoryStep)
  }

  /**
   * Every category is the untrimmed text of a non-blank link of the fetched
   * fragment, before the first non-blank link without a target, whose
   * target is no script.
   */
  lemma CategoriesAreNamedLinks(client: SeriesId -> Document, id: SeriesId, b: Node)
    requires !IsNotAvailable(b)
    ensures var links := FindInDocument(client(id), Name("a"));
      var k := FirstStop(links, CategoryStep);
      forall c :: c in Categories(client, id, b) ==>
        exists i :: 0 <= i < k && c == TextOf(links[i]) && Trim(c) != []
          && GetAttr(links[i], "href").Some? && !StartsWith(GetAttr(links[i], "href").value, "javascript")
  {
    var links := FindInDocument(client(id), Name("a"));
    var k := FirstStop(links, CategoryStep);
    ScanIsKeptBeforeStop(links, CategoryStep);
    KeptMembers(links[..k], CategoryStep);
    forall c | c in Categories(client, id, b)
      ensures exists i ::
                0 <= i < k && c == TextOf(links[i]) && Trim(c) != []
                && GetAttr(links[i], "href").Some? && !StartsWith(GetAttr(links[i], "href").value, "javascript")
    {
      var i :| 0 <= i < |links[..k]| && CategoryStep(links[..k][i]) == Keep(c);
      assert links[..k][i] == links[i];
    }
  }

  /** Every non-blank, non-script link before the first stop gives its category. */
  lemma CategoriesKeepNamedLinks(client: SeriesId -> Document, id: SeriesId, b: Node)
    requires !IsNotAvailable(b)
    ensures var links := FindInDocument(client(id), Name("a"));
      var k := FirstStop(links, CategoryStep);
      forall i ::
        (0 <= i < k && Trim(TextOf(links[i])) != [] && GetAttr(links[i], "href").Some?
         && !StartsWith(GetAttr(links[i], "href").value, "javascript")) ==>
          TextOf(links[i]) in Categories(client, id, b)
  {
    var links := FindInDocument(client(id), Name("a"));
    var k := FirstStop(links, CategoryStep);
    ScanIsKeptBeforeStop(links, CategoryStep);
    KeptMembers(links[..k], CategoryStep);
    forall i | 0 <= i < k && Trim(TextOf(links[i])) != [] && GetAttr(links[i], "href").Some?
      && !StartsWith(GetAttr(links[i], "href").value, "javascript")
      ensures TextOf(links[i]) in Categories(client, id, b)
    {
      assert links[..k][i] == links[i];
      assert CategoryStep(links[i]).Keep?;
    }
  }

  /**
   * The categories are what the links before the first stop give, and that
   * stop is a non-blank link without a target: no later link is read.
   */
  lemma CategoriesStopAtUntargetedLink(client: SeriesId -> Document, id: SeriesId, b: Node)
    requires !IsNotAvailable(b)
    ensures var links := FindInDocument(client(id), Name("a"));
      var k := FirstStop(links, CategoryStep);
      && Categories(client, id, b) == Kept(links[..k], CategoryStep)
      && (k < |links| ==> Trim(TextOf(links[k])) != [] && GetAttr(links[k], "href").None?)
  {
    var links := FindInDocument(client(id), Name("a"));
    ScanIsKeptBeforeStop(links, CategoryStep);
    FirstStopIsFirst(links, CategoryStep);
  }

  /** Where `parse_recommendations` looks: the `div_recom_more` element if any, else the block. */
  function RecommendationScope(b: Node): Node
  {
    var more := Find(b, AttrIs("id", "div_recom_more"));
    if more == [] then b else more[0]
  }

  /** `parse_recommendations`' step: stop at a link without a target or id, skip script links. */
  function RecommendationStep(a: Node): Step<(SeriesId, string)>
  {
    match GetAttr(a, "href")
    case None => Stop
    case Some(h) =>
      if StartsWith(h, "javascript") then Skip
      else match GetId(Some(h))
        case None => Stop
        case Some(id) => Keep((id, TextOf(a)))
  }

  /** What `parse_recommendations` appends. */
  function Recommendations(b: Node): (r: seq<(SeriesId, string)>)
    ensures IsNotAvailable(b) ==> r == []
    ensures |r| <= |Find(RecommendationScope(b), Name("a"))|
  {
    if IsNotAvailable(b) then [] else Scan(Find(RecommendationScope(b), Name("a")), RecommendationStep)
  }

  /**
   * Every recommendation is the id and text of a link before the first link
   * without a target or without an id, and that link's target is no script.
   */
  lemma RecommendationsAreIdLinks(b: Node)
    requires !IsNotAvailable(b)
    ensures var links := Find(RecommendationScope(b), Name("a"));
      var k := FirstStop(links, RecommendationStep);
      forall r :: r in Recommendations(b) ==>
        (exists i :: 0 <= i < k && GetAttr(links[i], "href").Some?
          && !StartsWith(GetAttr(links[i], "href").value, "javascript")
          && GetId(GetAttr(links[i], "href")) == Some(r.0) && r.1 == TextOf(links[i]))
  {
    var links := Find(RecommendationScope(b), Name("a"));
    var k := FirstStop(links, RecommendationStep);
    ScanIsKeptBeforeStop(links, RecommendationStep);
    KeptMembers(links[..k], RecommendationStep);
    forall r | r in Recommendations(b)
      ensures exists i ::
                0 <= i < k && GetAttr(links[i], "href").Some?
                && !StartsWith(GetAttr(links[i], "href").value, "javascript")
                && GetId(GetAttr(links[i], "href")) == Some(r.0) && r.1 == TextOf(links[i])
    {
      var i :| 0 <= i < |links[..k]| && RecommendationStep(links[..k][i]) == Keep(r);
      assert links[..k][i] == links[i];
    }
  }

  /**
   * Every link before the first stop whose target is no script names an id,
   * and gives its recommendation.
   */
  lemma RecommendationsKeepIdLinks(b: Node)
    requires !IsNotAvailable(b)
    ensures var links := Find(RecommendationScope(b), Name("a"));
      var k := FirstStop(links, RecommendationStep);
      forall i ::
        (0 <= i < k && GetAttr(links[i], "href").Some?
         && !StartsWith(GetAttr(links[i], "href").value, "javascript")) ==>
          GetId(GetAttr(links[i], "href")).Some?
          && (GetId(GetAttr(links[i], "href")).value, TextOf(links[i])) in Recommendations(b)
  {
    var links := Find(RecommendationScope(b), Name("a"));
    var k := FirstStop(links, RecommendationStep);
    ScanIsKeptBeforeStop(links, RecommendationStep);
    KeptMembers(links[..k], RecommendationStep);
    FirstStopIsFirst(links, RecommendationStep);
    forall i | 0 <= i < k && GetAttr(links[i], "href").Some?
      && !StartsWith(GetAttr(links[i], "href").value, "javascript")
      ensures GetId(GetAttr(links[i], "href")).Some?
      ensures (GetId(GetAttr(links[i], "href")).value, TextOf(links[i])) in Recommendations(b)
    {
      assert links[..k][i] == links[i];
      assert RecommendationStep(links[i]).Keep?;
    }
  }

  /**
   * The recommendations are what the links before the first stop give, and
   * that stop is a link without a target or whose target names no id: a
   * good link after it is never read.
   */
  lemma RecommendationsStopAtBadLink(b: Node)
    requires !IsNotAvailable(b)
    ensures var links := Find(RecommendationScope(b), Name("a"));
      var k := FirstStop(links, RecommendationStep);
      && Recommendations(b) == Kept(links[..k], RecommendationStep)
      && (k < |links| ==> GetAttr(links[k], "href").None? || GetId(GetAttr(links[k], "href")).None?)
  {
    var links := Find(RecommendationScope(b), Name("a"));
    ScanIsKeptBeforeStop(links, RecommendationStep);
    FirstStopIsFirst(links, RecommendationStep);
  }

  // ---- The loops ----

  /** `for child in node.find(Text)` of `parse_associated_names`, pushing onto `list`. */
  method PushNames(texts: seq<Node>, list: seq<string>) returns (list': seq<string>)
    ensures list' == list + Kept(texts, NameStep)
  {
    list' := list;
    var i := 0;
    assert texts[i..] == texts;
    while i < |texts|
      invariant i <= |texts|
      invariant list' + Kept(texts[i..], NameStep) == list + Kept(texts, NameStep)
    {
      KeptNext(texts, NameStep, i);
      var name := Trim(TextOf(texts[i]));
      if name != [] && name != NotAvailable {
        list' := list' + [name];
      }
      i := i + 1;
    }
    assert list' + [] == list';
  }

  /** `for node in node.find(Text) { push(node.text()) }`, and the collect of `parse_genre`. */
  method PushTexts(nodes: seq<Node>, list: seq<string>) returns (list': seq<string>)
    ensures list' == list + Texts(nodes)
  {
    list' := list;
    var i := 0;
    assert nodes[i..] == nodes;
    while i < |nodes|
      invariant i <= |nodes|
      invariant list' + Texts(nodes[i..]) == list + Texts(nodes)
    {
      assert nodes[i..][0] == nodes[i] && nodes[i..][1..] == nodes[i + 1..];
      list' := list' + [TextOf(nodes[i])];
      i := i + 1;
    }
    assert list' + [] == list';
  }

  /** `for node in links { push((get_id(node.attr("href"))?, node.text())) }`, pushing onto `list`. */
  method PushIdLinks(links: seq<Node>, list: seq<(Usize, string)>) returns (list': seq<(Usize, string)>)
    ensures list' == list + LeadingSome(links, IdLink)
  {
    list' := list;
    var i := 0;
    assert links[i..] == links;
    while i < |links|
      invariant i <= |links|
      invariant list' + LeadingSome(links[i..], IdLink) == list + LeadingSome(links, IdLink)
    {
      LeadingSomeNext(links, IdLink, i);
      var id := GetId(GetAttr(links[i], "href"));
      if id.None? {
        assert list' + [] == list';
        return;
      }
      list' := list' + [(id.value, TextOf(links[i]))];
      i := i + 1;
    }
    assert list' + [] == list';
  }

  /** The loop of `parse_categories` over the fetched links, pushing onto `list`. */
  method PushCategories(links: seq<Node>, list: seq<string>) returns (list': seq<string>)
    ensures list' == list + Scan(links, CategoryStep)
  {
    list' := list;
    var i := 0;
    assert links[i..] == links;
    while i < |links|
      invariant i <= |links|
      invariant list' + Scan(links[i..], CategoryStep) == list + Scan(links, CategoryStep)
    {
      ScanNext(links, CategoryStep, i);
      var text := TextOf(links[i]);
      if Trim(text) == [] {
        assert CategoryStep(links[i]) == Skip;
        i := i + 1;
        continue;
      }
      var href := GetAttr(links[i], "href");
      if href.None? {
        assert CategoryStep(links[i]) == Stop;
        assert list' + [] == list';
        return;
      }
      if StartsWith(href.value, "javascript") {
        assert CategoryStep(links[i]) == Skip;
        i := i + 1;
        continue;
      }
      assert CategoryStep(links[i]) == Keep(text);
      list' := list' + [text];
      i := i + 1;
    }
    assert list' + [] == list';
  }

  /** The loop of `parse_recommendations`, pushing onto `list`. */
  method PushRecommendations(links: seq<Node>, list: seq<(SeriesId, string)>) returns (list': seq<(SeriesId, string)>)
    ensures list' == list + Scan(links, RecommendationStep)
  {
    list' := list;
    var i := 0;
    assert links[i..] == links;
    while i < |links|
      invariant i <= |links|
      invariant list' + Scan(links[i..], RecommendationStep) == list + Scan(links, RecommendationStep)
    {
      ScanNext(links, RecommendationStep, i);
      var href := GetAttr(links[i], "href");
      if href.None? {
        assert list' + [] == list';
        return;
      }
      if StartsWith(href.value, "javascript") {
        i := i + 1;
        continue;
      }
      var name := TextOf(links[i]);
      var id := GetId(GetAttr(links[i], "href"));
      if id.None? {
        assert list' + [] == list';
        return;
      }
      list' := list' + [(id.value, name)];
      i := i + 1;
    }
    assert list' + [] == list';
  }

  // ---- The decoders that update the record ----

  /** `parse_associated_names`. */
  method ParseAssociatedNames(b: Node, s: Series) returns (s': Series)
    ensures s' == s.(associatedNames := s.associatedNames + AssociatedNames(b))
  {
    if IsNotAvailable(b) {
      assert s.associatedNames + [] == s.associatedNames;
      return s;
    }
    var names := PushNames(Find(b, IsText), s.associatedNames);
    s' := s.(associatedNames := names);
  }

  /** `parse_scanlating`. */
  method ParseScanlating(b: Node, s: Series) returns (s': Series)
    ensures s' == s.(groupsScanlating := s.groupsScanlating + Scanlators(b))
  {
    if IsNotAvailable(b) {
      assert s.groupsScanlating + [] == s.groupsScanlating;
      return s;
    }
    var groups := PushIdLinks(Find(b, AttrIs("title", "Group Info")), s.groupsScanlating);
    s' := s.(groupsScanlating := groups);
  }

  /** `parse_status_in_coo`. */
  method ParseStatusInCoo(b: Node, s: Series) returns (s': Series)
    ensures s' == s.(statusInCoo := s.statusInCoo + TextPieces(b))
  {
    if TextOf(b) == NotAvailable {
      assert s.statusInCoo + [] == s.statusInCoo;
      return s;
    }
    var status := PushTexts(Find(b, IsText), s.statusInCoo);
    s' := s.(statusInCoo := status);
  }

  /** `parse_anime_start_end`. */
  method ParseAnimeStartEnd(b: Node, s: Series) returns (s': Series)
    ensures s' == s.(animeStartEnd := s.animeStartEnd + TextPieces(b))
  {
    if TextOf(b) == NotAvailable {
      assert s.animeStartEnd + [] == s.animeStartEnd;
      return s;
    }
    var anime := PushTexts(Find(b, IsText), s.animeStartEnd);
    s' := s.(animeStartEnd := anime);
  }

  /** `parse_genre`: the collected link texts replace the list, then the last is popped. */
  method ParseGenre(b: Node, s: Series) returns (s': Series)
    ensures s' == s.(genre := Genres(b))
  {
    var collected := PushTexts(Find(b, Name("a")), []);
    assert [] + Texts(Find(b, Name("a"))) == Texts(Find(b, Name("a")));
    s' := s.(genre := collected);
    if |s'.genre| > 0 {
      s' := s'.(genre := s'.genre[..|s'.genre| - 1]);
    }
  }

  /** `parse_categories`: the block only decides whether the fragment is fetched. */
  method ParseCategories(client: SeriesId -> Document, b: Node, s: Series) returns (s': Series)
    ensures s' == s.(categories := s.categories + Categories(client, s.id, b))
  {
    if IsNotAvailable(b) {
      assert s.categories + [] == s.categories;
      return s;
    }
    var doc := client(s.id);
    var categories := PushCategories(FindInDocument(doc, Name("a")), s.categories);
    s' := s.(categories := categories);
  }

  /** `parse_category_recommendations`. */
  method ParseCategoryRecommendations(b: Node, s: Series) returns (s': Series)
    ensures s' == s.(categoryRecommendations := s.categoryRecommendations + CategoryRecommendations(b))
  {
    if StartsWith(Trim(TextOf(b)), NotAvailable) {
      assert s.categoryRecommendations + [] == s.categoryRecommendations;
      return s;
    }
    var recs := PushIdLinks(Find(b, Name("a")), s.categoryRecommendations);
    s' := s.(categoryRecommendations := recs);
  }

  /** `parse_recommendations`. */
  method ParseRecommendations(b: Node, s: Series) returns (s': Series)
    ensures s' == s.(recommendations := s.recommendations + Recommendations(b))
  {
    if IsNotAvailable(b) {
      assert s.recommendations + [] == s.recommendations;
      return s;
    }
    var more := Find(b, AttrIs("id", "div_recom_more"));
    var scope := if more == [] then b else more[0];
    var recs := PushRecommendations(Find(scope, Name("a")), s.recommendations);
    s' := s.(recommendations := recs);
  }

  /** `parse_authors`. */
  method ParseAuthors(b: Node, s: Series) returns (s': Series)
    ensures s' == s.(authors := s.authors + Authors(b))
  {
    if IsNotAvailable(b) {
      assert s.authors + [] == s.authors;
      return s;
    }
    var authors := PushIdLinks(Find(b, Name("a")), s.authors);
    s' := s.(authors := authors);
  }

  /** `parse_artists`. */
  method ParseArtists(b: Node, s: Series) returns (s': Series)
    ensures s' == s.(artists := s.artists + Artists(b))
  {
    if IsNotAvailable(b) {
      assert s.artists + [] == s.artists;
      return s;
    }
    var artists := PushIdLinks(Find(b, Name("a")), s.artists);
    s' := s.(artists := artists);
  }
}
