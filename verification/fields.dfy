/** What the normalisers make of one value and of a list, in plain numbers. */
module Fields {
  import opened Outcomes
  import opened Sequences
  import opened Text
  import opened Articles
  import opened Payload
  import opened Query

  /** The first `n` characters. */
  function First(s: string, n: nat): (r: string)
    ensures |r| == (if |s| < n then |s| else n) && r <= s
  {
    Take(s, n)
  }

  lemma CollapsedEmptyIff(s: string)
    ensures Collapse(s) == "" <==> Words(s) == []
  {
    CollapseIsJoin(s);
    WordsAreWords(s);
    JoinEmpty(Words(s));
  }

  /** A keyword: the words of the item, joined by single spaces, lower-cased, cut to 80. */
  lemma KeywordIs(item: string)
    ensures KeywordOf(item) ==
            if Words(item) == [] then None else Some(First(Lower(Join(Words(item))), 80))
  {
    CollapsedEmptyIff(item);
    CollapseIsJoin(item);
    LowerIs(Collapse(item));
  }

  /** An FAQ: question and answer must both have a word; the question is its words, joined
      and cut to 300; the answer is stripped and cut to 1500. */
  lemma FaqIs(question: string, answer: string)
    ensures FaqOf(OtherFaq) == None
    ensures FaqOf(FaqDict(question, answer)) ==
            if Words(question) == [] || Words(answer) == [] then None
            else Some(Faq(First(Join(Words(question)), 300), First(Strip(answer), 1500)))
  {
    CollapsedEmptyIff(question);
    CollapseIsJoin(question);
    StrippedEmptyIff(answer);
  }

  lemma StrippedEmptyIff(s: string)
    ensures Strip(s) == "" <==> Words(s) == []
  {
    WordsOfStrip(s);
    StripShape(s);
    if Strip(s) != "" {
      assert !IsSpace(Strip(s)[0]);
    }
  }

  /** A link: its URL must be one and is cut to 2048; a call to action without a word
      reads `View`, another is stripped and cut to 60. */
  lemma LinkIs(canon: Canon, cta: string, url: string)
    ensures LinkOf(canon)(OtherLink) == None
    ensures LinkOf(canon)(LinkDict(cta, url)) ==
            match canon(url)
            case None => None
            case Some(safe) => Some(Link(if Words(cta) == [] then "View" else First(Strip(cta), 60), First(safe, 2048)))
  {
    StrippedEmptyIff(cta);
  }

  /** A medium: a bare string is its URL, without a title; an object's `url` counts before
      its `link`; the title is stripped and cut to 200; the URL is not cut. */
  lemma MediaIs(canon: Canon, text: string, url: string, link: string, title: string)
    ensures MediaOf(canon)(MediaUrl(text)) ==
            (match canon(text) case None => None case Some(safe) => Some(Media(safe, "")))
    ensures MediaOf(canon)(MediaDict(url, link, title)) ==
            match canon(if url == "" then link else url)
            case None => None
            case Some(safe) => Some(Media(safe, First(Strip(title), 200)))
    ensures canon("") == None ==> MediaOf(canon)(OtherMedia) == None
  {
    assert Take(Strip(""), 200) == "";
    assert RawMediaUrl(MediaUrl(text)) == text && RawMediaTitle(MediaUrl(text)) == "";
    var item := MediaDict(url, link, title);
    assert RawMediaUrl(item) == if url == "" then link else url;
    assert RawMediaTitle(item) == title && First(Strip(title), 200) == Take(Strip(title), URL_TITLE_TITLE_MAX);
    assert RawMediaUrl(OtherMedia) == "";
  }

  /** Metas: the words joined by single spaces, cut to 60 and to 160; none without a word. */
  lemma MetasAre(value: string)
    ensures MetaTitle(None) == None && MetaDescription(None) == None
    ensures MetaTitle(Some(value)) == if Words(value) == [] then None else Some(First(Join(Words(value)), 60))
    ensures MetaDescription(Some(value)) == if Words(value) == [] then None else Some(First(Join(Words(value)), 160))
  {
    CollapsedEmptyIff(value);
    CollapseIsJoin(value);
    CollapsedEmptyIff("");
  }

  /** A cover: a URL, cut to 2048, or nothing. */
  lemma CoverIs(canon: Canon, value: string)
    ensures CoverUrl(canon, Some(value)) ==
            (match canon(value) case None => None case Some(safe) => Some(First(safe, 2048)))
    ensures canon("") == None ==> CoverUrl(canon, None) == None
  {
  }

  /** The first `n` items that are kept, in order. */
  function FirstKept<A, B>(f: A -> Option<B>, items: seq<A>, n: nat): (out: seq<B>)
    decreases |items|
  {
    if n == 0 || items == [] then []
    else
      match f(items[0])
      case None => FirstKept(f, items[1..], n)
      case Some(b) => [b] + FirstKept(f, items[1..], n - 1)
  }

  lemma {:induction false} FilterMapCons<A, B>(f: A -> Option<B>, s: seq<A>)
    requires s != []
    ensures FilterMap(f, s) == (match f(s[0]) case None => [] case Some(b) => [b]) + FilterMap(f, s[1..])
  {
    if |s| == 1 {
      assert s[..0] == [] && s[1..] == [];
    } else {
      FilterMapCons(f, s[..|s| - 1]);
      assert s[..|s| - 1][1..] == s[1..][..|s| - 2];
    }
  }

  lemma {:induction false} FirstKeptIs<A, B>(f: A -> Option<B>, s: seq<A>, n: nat)
    ensures Take(FilterMap(f, s), n) == FirstKept(f, s, n)
    decreases |s|
  {
    if s != [] {
      FilterMapCons(f, s);
      FirstKeptIs(f, s[1..], n);
      if n > 0 {
        FirstKeptIs(f, s[1..], n - 1);
      }
    }
  }

  /** How many items each list keeps: the first 30 FAQs, 24 links, 20 media; anything but a list keeps none. */
  lemma CapsAre(canon: Canon, faqs: seq<FaqInput>, links: seq<LinkInput>, media: seq<MediaInput>)
    ensures FaqList(None) == [] && FaqList(Some(faqs)) == FirstKept(FaqOf, faqs, 30)
    ensures LinkList(canon, None) == [] && LinkList(canon, Some(links)) == FirstKept(LinkOf(canon), links, 24)
    ensures MediaList(canon, None) == [] && MediaList(canon, Some(media)) == FirstKept(MediaOf(canon), media, 20)
  {
    FirstKeptIs(FaqOf, faqs, 30);
    FirstKeptIs(LinkOf(canon), links, 24);
    FirstKeptIs(MediaOf(canon), media, 20);
  }

  /** The pieces put back together around a separator. */
  function Glue(pieces: seq<string>, separator: char): string {
    if pieces == [] then ""
    else if |pieces| == 1 then pieces[0]
    else pieces[0] + [separator] + Glue(pieces[1..], separator)
  }

  lemma {:induction false} SplitIs(s: string, separator: char)
    ensures Glue(SplitOn(s, separator), separator) == s
    ensures forall p :: p in SplitOn(s, separator) ==> separator !in p
  {
    if s != "" {
      var rest := SplitOn(s[1..], separator);
      SplitIs(s[1..], separator);
      assert s == [s[0]] + s[1..];
      if s[0] == separator {
        assert ([""] + rest)[1..] == rest;
      } else {
        var pieces := [[s[0]] + rest[0]] + rest[1..];
        assert pieces[1..] == rest[1..];
        assert rest[0] in rest;
      }
    }
  }

  /** A comma-separated text is the list of its pieces; neither a list nor a text is no keyword;
      and a list gives at most 24 keywords, all of them while there are no more. */
  lemma KeywordInputs(text: string, items: seq<string>)
    ensures exists pieces ::
              && Glue(pieces, ',') == text && pieces != [] && (forall p :: p in pieces ==> ',' !in p)
              && SearchKeywords(KeywordText(text)) == SearchKeywords(KeywordList(pieces))
    ensures SearchKeywords(OtherKeywords) == []
    ensures var all := DistinctKeywords(items);
            SearchKeywords(KeywordList(items)) == if |all| <= 24 then all else all[..24]
    ensures forall k :: k in DistinctKeywords(items) <==> exists item :: item in items && KeywordOf(item) == Some(k)
  {
    SplitIs(text, ',');
    assert SearchKeywords(KeywordText(text)) == SearchKeywords(KeywordList(SplitOn(text, ',')));
    DedupFirstOccurrences(FilterMap(KeywordOf, items));
    forall k
      ensures k in FilterMap(KeywordOf, items) <==> exists item :: item in items && KeywordOf(item) == Some(k)
    {
      if k in FilterMap(KeywordOf, items) {
        FilterMapFrom(KeywordOf, items, k);
      }
      if item :| item in items && KeywordOf(item) == Some(k) {
        FilterMapHolds(KeywordOf, items, item, k);
      }
    }
  }
}
