/** Saving an article's own served fields back: what moves, and when nothing does. */
module Resave {
  import opened Outcomes
  import opened Sequences
  import opened Text
  import opened Articles
  import opened Payload
  import opened Writes
  import Posts

  // ---- What the normalisers leave in a column ----------------------------------

  /** Cut out of a stripped text: clean at the front, perhaps not at the cut. */
  predicate CutText(s: string, cap: nat) {
    !StartsInSpace(s) && |s| <= cap
  }

  /** Cut out of a collapsed text. */
  ghost predicate CutWords(s: string, cap: nat) {
    Tidy(s) && |s| <= cap && s != ""
  }

  ghost predicate KeywordStored(k: string) {
    CutWords(k, SEARCH_KEYWORD_ITEM_MAX) && IsLower(k)
  }

  ghost predicate KeywordsStored(ks: seq<string>) {
    && |ks| <= SEARCH_KEYWORD_MAX_ITEMS && Distinct(ks)
    && forall k :: k in ks ==> KeywordStored(k)
  }

  ghost predicate FaqStored(f: Faq) {
    CutWords(f.question, FAQ_QUESTION_MAX) && CutText(f.answer, FAQ_ANSWER_MAX) && f.answer != ""
  }

  ghost predicate LinkStored(l: Link) {
    CutText(l.cta, LINK_CTA_MAX) && l.cta != "" && UrlStored(l.url, LINK_URL_MAX)
  }

  ghost predicate MediaStored(m: Media) {
    CutText(m.title, URL_TITLE_TITLE_MAX)
  }

  /** Cut out of a canonical URL. The cut need not be canonical any more. */
  predicate UrlStored(url: string, cap: nat) {
    url != "" && |url| <= cap
  }

  ghost predicate MetaStored(meta: Option<string>, cap: nat) {
    meta.Some? ==> CutWords(meta.value, cap)
  }

  ghost predicate Stored(a: Article) {
    && Strip(a.title) == a.title && Strip(a.description) == a.description
    && MetaStored(a.metaTitle, META_TITLE_MAX) && MetaStored(a.metaDescription, META_DESCRIPTION_MAX)
    && KeywordsStored(a.searchKeyword)
    && |a.faq| <= FAQ_MAX_ITEMS && (forall f :: f in a.faq ==> FaqStored(f))
    && |a.links| <= LINKS_MAX && (forall l :: l in a.links ==> LinkStored(l))
    && |a.instagram| <= URL_TITLE_LIST_MAX && (forall m :: m in a.instagram ==> MediaStored(m))
    && |a.youtube| <= URL_TITLE_LIST_MAX && (forall m :: m in a.youtube ==> MediaStored(m))
    && (a.coverImageUrl.Some? ==> UrlStored(a.coverImageUrl.value, COVER_IMAGE_URL_MAX))
  }

  /** A stored URL that normalising and cutting again gives back. */
  predicate UrlSettled(canon: Canon, url: string, cap: nat) {
    canon(url).Some? && Take(canon(url).value, cap) == url
  }

  /** Every stored URL is settled. Media URLs are never cut. */
  predicate UrlsSettled(canon: Canon, a: Article) {
    && (forall l :: l in a.links ==> UrlSettled(canon, l.url, LINK_URL_MAX))
    && (forall m :: m in a.instagram ==> canon(m.url) == Some(m.url))
    && (forall m :: m in a.youtube ==> canon(m.url) == Some(m.url))
    && (a.coverImageUrl.Some? ==> UrlSettled(canon, a.coverImageUrl.value, COVER_IMAGE_URL_MAX))
  }

  /** What is stored for a URL, canonical and cut, is settled at once. */
  predicate UrlSettles(canon: Canon, url: string, cap: nat) {
    canon(url).Some? ==> UrlSettled(canon, Take(canon(url).value, cap), cap)
  }

  predicate MediaUrlSettles(canon: Canon, url: string) {
    canon(url).Some? ==> canon(canon(url).value) == canon(url)
  }

  /** Every URL of a request settles at once. */
  predicate BodySettles(canon: Canon, body: Body) {
    && (body.links.Sent? && body.links.value.Some? ==>
          forall l :: l in body.links.value.value && l.LinkDict? ==> UrlSettles(canon, l.url, LINK_URL_MAX))
    && (body.instagram.Sent? && body.instagram.value.Some? ==>
          forall m :: m in body.instagram.value.value ==> MediaUrlSettles(canon, RawMediaUrl(m)))
    && (body.youtube.Sent? && body.youtube.value.Some? ==>
          forall m :: m in body.youtube.value.value ==> MediaUrlSettles(canon, RawMediaUrl(m)))
    && (body.coverImageUrl.Sent? ==> UrlSettles(canon, OrEmpty(body.coverImageUrl.value), COVER_IMAGE_URL_MAX))
  }

  /** Every URL of a row is settled once it has been normalised again. */
  predicate RowSettles(canon: Canon, a: Article) {
    && (forall l :: l in a.links ==> UrlSettles(canon, l.url, LINK_URL_MAX))
    && (forall m :: m in a.instagram ==> MediaUrlSettles(canon, m.url))
    && (forall m :: m in a.youtube ==> MediaUrlSettles(canon, m.url))
    && (a.coverImageUrl.Some? ==> UrlSettles(canon, a.coverImageUrl.value, COVER_IMAGE_URL_MAX))
  }

  // ---- Every write leaves stored shapes ------------------------------------------

  lemma CutOfStrip(s: string, cap: nat)
    ensures CutText(Take(Strip(s), cap), cap)
  {
    StripShape(s);
  }

  lemma CutOfCollapse(s: string, cap: nat)
    requires cap > 0 && Collapse(s) != ""
    ensures CutWords(Take(Collapse(s), cap), cap)
  {
    CollapseShape(s);
    TidyCut(Collapse(s), cap);
  }

  lemma KeywordsAreStored(value: KeywordInput)
    ensures KeywordsStored(SearchKeywords(value))
  {
    KeywordsAreFirstDistinct(value);
    var raw := RawKeywords(value);
    forall k | k in SearchKeywords(value)
      ensures KeywordStored(k)
    {
      FilterMapFrom(KeywordOf, raw, k);
      var item :| item in raw && KeywordOf(item) == Some(k);
      CollapseShape(item);
      LowerKeepsShape(Collapse(item));
      LowerFixes(Collapse(item));
      TidyCut(Lower(Collapse(item)), SEARCH_KEYWORD_ITEM_MAX);
    }
  }

  lemma FaqIsStored(value: Option<seq<FaqInput>>, f: Faq)
    requires f in FaqList(value)
    ensures FaqStored(f)
  {
    FilterMapFrom(FaqOf, value.value, f);
    var item :| item in value.value && FaqOf(item) == Some(f);
    assert Collapse(item.question) != "";
    CutOfCollapse(item.question, FAQ_QUESTION_MAX);
    CutOfStrip(item.answer, FAQ_ANSWER_MAX);
  }

  lemma LinkIsStored(canon: Canon, value: Option<seq<LinkInput>>, l: Link)
    requires ValidUrls(canon) && l in LinkList(canon, value)
    ensures LinkStored(l)
  {
    FilterMapFrom(LinkOf(canon), value.value, l);
    var item :| item in value.value && LinkOf(canon)(item) == Some(l);
    CutOfStrip(item.cta, LINK_CTA_MAX);
    assert ValidAt(canon, item.url);
  }

  lemma MediaIsStored(canon: Canon, value: Option<seq<MediaInput>>, m: Media)
    requires m in MediaList(canon, value)
    ensures MediaStored(m)
  {
    FilterMapFrom(MediaOf(canon), value.value, m);
    var item :| item in value.value && MediaOf(canon)(item) == Some(m);
    CutOfStrip(RawMediaTitle(item), URL_TITLE_TITLE_MAX);
  }

  lemma MetaIsStored(value: string, cap: nat)
    requires cap > 0
    ensures MetaStored(Meta(value, cap), cap)
  {
    if Collapse(value) != "" {
      CutOfCollapse(value, cap);
    }
  }

  /** Every create and update keeps the stored shapes. */
  lemma WritesKeepStored(canon: Canon, a: Article, body: Body, author: Option<Author>, rendered: Option<string>)
    requires ValidUrls(canon) && Stored(a)
    ensures Stored(Merge(a, DataFor(canon, body, author, rendered)))
  {
    var b := Merge(a, DataFor(canon, body, author, rendered));
    assert Strip(b.title) == b.title && Strip(b.description) == b.description by {
      if body.title.Sent? {
        StripShape(OrEmpty(body.title.value));
        StripFixes(b.title);
      }
      if body.description.Sent? {
        StripShape(OrEmpty(body.description.value));
        StripFixes(b.description);
      }
    }
    if body.metaTitle.Sent? {
      MetaIsStored(OrEmpty(body.metaTitle.value), META_TITLE_MAX);
    }
    if body.metaDescription.Sent? {
      MetaIsStored(OrEmpty(body.metaDescription.value), META_DESCRIPTION_MAX);
    }
    if body.searchKeyword.Sent? {
      KeywordsAreStored(body.searchKeyword.value);
    }
    if body.coverImageUrl.Sent? && b.coverImageUrl.Some? {
      assert ValidAt(canon, OrEmpty(body.coverImageUrl.value));
    }
    WritesKeepLists(canon, a, body, author, rendered);
  }

  lemma WritesKeepLists(canon: Canon, a: Article, body: Body, author: Option<Author>, rendered: Option<string>)
    requires ValidUrls(canon) && Stored(a)
    ensures var b := Merge(a, DataFor(canon, body, author, rendered));
            && |b.faq| <= FAQ_MAX_ITEMS && (forall f :: f in b.faq ==> FaqStored(f))
            && |b.links| <= LINKS_MAX && (forall l :: l in b.links ==> LinkStored(l))
            && |b.instagram| <= URL_TITLE_LIST_MAX && (forall m :: m in b.instagram ==> MediaStored(m))
            && |b.youtube| <= URL_TITLE_LIST_MAX && (forall m :: m in b.youtube ==> MediaStored(m))
  {
    var b := Merge(a, DataFor(canon, body, author, rendered));
    forall f | f in b.faq
      ensures FaqStored(f)
    {
      if body.faq.Sent? {
        FaqIsStored(body.faq.value, f);
      }
    }
    forall l | l in b.links
      ensures LinkStored(l)
    {
      if body.links.Sent? {
        LinkIsStored(canon, body.links.value, l);
      }
    }
    forall m | m in b.instagram
      ensures MediaStored(m)
    {
      if body.instagram.Sent? {
        MediaIsStored(canon, body.instagram.value, m);
      }
    }
    forall m | m in b.youtube
      ensures MediaStored(m)
    {
      if body.youtube.Sent? {
        MediaIsStored(canon, body.youtube.value, m);
      }
    }
  }

  lemma LinkIsSettled(canon: Canon, value: Option<seq<LinkInput>>, l: Link)
    requires l in LinkList(canon, value)
    requires forall i :: i in value.value && i.LinkDict? ==> UrlSettles(canon, i.url, LINK_URL_MAX)
    ensures UrlSettled(canon, l.url, LINK_URL_MAX)
  {
    FilterMapFrom(LinkOf(canon), value.value, l);
    var item :| item in value.value && LinkOf(canon)(item) == Some(l);
    assert UrlSettles(canon, item.url, LINK_URL_MAX);
  }

  lemma MediaIsSettled(canon: Canon, value: Option<seq<MediaInput>>, m: Media)
    requires m in MediaList(canon, value)
    requires forall i :: i in value.value ==> MediaUrlSettles(canon, RawMediaUrl(i))
    ensures canon(m.url) == Some(m.url)
  {
    FilterMapFrom(MediaOf(canon), value.value, m);
    var item :| item in value.value && MediaOf(canon)(item) == Some(m);
    assert MediaUrlSettles(canon, RawMediaUrl(item));
  }

  /** A request whose URLs settle at once leaves every URL of the row settled. */
  lemma WritesKeepSettled(canon: Canon, a: Article, body: Body, author: Option<Author>, rendered: Option<string>)
    requires UrlsSettled(canon, a) && BodySettles(canon, body)
    ensures UrlsSettled(canon, Merge(a, DataFor(canon, body, author, rendered)))
  {
    var b := Merge(a, DataFor(canon, body, author, rendered));
    forall l | l in b.links
      ensures UrlSettled(canon, l.url, LINK_URL_MAX)
    {
      if body.links.Sent? {
        LinkIsSettled(canon, body.links.value, l);
      }
    }
    forall m | m in b.instagram
      ensures canon(m.url) == Some(m.url)
    {
      if body.instagram.Sent? {
        MediaIsSettled(canon, body.instagram.value, m);
      }
    }
    forall m | m in b.youtube
      ensures canon(m.url) == Some(m.url)
    {
      if body.youtube.Sent? {
        MediaIsSettled(canon, body.youtube.value, m);
      }
    }
  }

  // ---- What a second pass does to each kind of field ----------------------------

  lemma CutWordsAgain(s: string, cap: nat)
    requires CutWords(s, cap)
    ensures Collapse(s) != "" && Take(Collapse(s), cap) == DropDangling(s)
    ensures CutWords(DropDangling(s), cap) && !EndsInSpace(DropDangling(s))
    ensures DropDangling(s) == s <==> !EndsInSpace(s)
  {
    CollapseTidy(s);
  }

  lemma CutTextAgain(s: string, cap: nat)
    requires CutText(s, cap)
    ensures Take(Strip(s), cap) == RStrip(s)
    ensures CutText(RStrip(s), cap) && !EndsInSpace(RStrip(s))
    ensures RStrip(s) == s <==> !EndsInSpace(s)
    ensures s != "" ==> RStrip(s) != ""
  {
    RStripShape(s);
    assert LStrip(s) == s;
  }

  lemma KeywordAgain(k: string)
    requires KeywordStored(k)
    ensures KeywordOf(k) == Some(DropDangling(k))
    ensures KeywordStored(DropDangling(k)) && !EndsInSpace(DropDangling(k))
  {
    CutWordsAgain(k, SEARCH_KEYWORD_ITEM_MAX);
    CollapseTidy(k);
    LowerFixes(DropDangling(k));
  }

  lemma FaqAgain(f: Faq)
    requires FaqStored(f)
    ensures FaqOf(ServeFaq(f)) == Some(TrimFaq(f)) && FaqStored(TrimFaq(f))
    ensures TrimFaq(f) == f <==> FaqClean(f)
    ensures FaqClean(TrimFaq(f))
  {
    CutWordsAgain(f.question, FAQ_QUESTION_MAX);
    CutTextAgain(f.answer, FAQ_ANSWER_MAX);
  }

  lemma LinkAgain(canon: Canon, l: Link)
    requires LinkStored(l)
    ensures LinkOf(canon)(ServeLink(l)) == SavedLink(canon)(l)
    ensures SavedLink(canon)(l) == Some(l) <==> !EndsInSpace(l.cta) && UrlSettled(canon, l.url, LINK_URL_MAX)
    ensures SavedLink(canon)(l).Some? ==> !EndsInSpace(SavedLink(canon)(l).value.cta)
  {
    CutTextAgain(l.cta, LINK_CTA_MAX);
  }

  lemma MediaAgain(canon: Canon, m: Media)
    requires ValidUrls(canon) && MediaStored(m)
    ensures MediaOf(canon)(ServeMedia(m)) == SavedMedia(canon)(m)
    ensures SavedMedia(canon)(m) == Some(m) <==> !EndsInSpace(m.title) && canon(m.url) == Some(m.url)
    ensures SavedMedia(canon)(m).Some? ==> !EndsInSpace(SavedMedia(canon)(m).value.title)
  {
    CutTextAgain(m.title, URL_TITLE_TITLE_MAX);
    assert RawMediaUrl(ServeMedia(m)) == m.url;
  }

  function ServeFaq(f: Faq): FaqInput { FaqDict(f.question, f.answer) }
  function ServeLink(l: Link): LinkInput { LinkDict(l.cta, l.url) }
  function ServeMedia(m: Media): MediaInput { MediaDict(m.url, "", m.title) }
  function ServeKeyword(k: string): string { k }

  function TrimFaq(f: Faq): Faq { Faq(DropDangling(f.question), RStrip(f.answer)) }

  /** What saving a stored link again makes of it: dropped if its cut URL is no URL. */
  function SavedLink(canon: Canon): Link -> Option<Link> {
    (l: Link) =>
      match canon(l.url)
      case None => None
      case Some(safe) => Some(Link(RStrip(l.cta), Take(safe, LINK_URL_MAX)))
  }

  function SavedMedia(canon: Canon): Media -> Option<Media> {
    (m: Media) =>
      match canon(m.url)
      case None => None
      case Some(safe) => Some(Media(safe, RStrip(m.title)))
  }

  function TrimMeta(meta: Option<string>): Option<string> {
    if meta.Some? then Some(DropDangling(meta.value)) else None
  }

  predicate FaqClean(f: Faq) {
    !EndsInSpace(f.question) && !EndsInSpace(f.answer)
  }

  /** No stored capped text ends in whitespace. */
  predicate Clean(a: Article) {
    && (a.metaTitle.Some? ==> !EndsInSpace(a.metaTitle.value))
    && (a.metaDescription.Some? ==> !EndsInSpace(a.metaDescription.value))
    && (forall k :: k in a.searchKeyword ==> !EndsInSpace(k))
    && (forall f :: f in a.faq ==> FaqClean(f))
    && (forall l :: l in a.links ==> !EndsInSpace(l.cta))
    && (forall m :: m in a.instagram ==> !EndsInSpace(m.title))
    && (forall m :: m in a.youtube ==> !EndsInSpace(m.title))
  }

  lemma MetaAgain(meta: Option<string>, cap: nat)
    requires MetaStored(meta, cap)
    ensures Meta(OrEmpty(meta), cap) == TrimMeta(meta) && MetaStored(TrimMeta(meta), cap)
    ensures TrimMeta(meta) == meta <==> (meta.Some? ==> !EndsInSpace(meta.value))
    ensures TrimMeta(meta).Some? ==> !EndsInSpace(TrimMeta(meta).value)
  {
    if meta.Some? {
      CutWordsAgain(meta.value, cap);
    } else {
      assert Squeeze("") == "" && Strip("") == "";
    }
  }

  lemma KeywordsTrimmed(ks: seq<string>)
    requires KeywordsStored(ks)
    ensures SearchKeywords(KeywordList(ks)) == Dedup(Map(DropDangling, ks))
    ensures forall k :: k in Map(DropDangling, ks) ==> KeywordStored(k) && !EndsInSpace(k)
  {
    forall k | k in ks
      ensures KeywordOf(ServeKeyword(k)) == Some(DropDangling(k))
      ensures KeywordStored(DropDangling(k)) && !EndsInSpace(DropDangling(k))
    {
      KeywordAgain(k);
    }
    FilterMapAll(KeywordOf, ServeKeyword, DropDangling, ks);
    assert Map(ServeKeyword, ks) == ks;
    DedupFirstOccurrences(Map(DropDangling, ks));
  }

  lemma DropDanglingFixes(ks: seq<string>)
    requires forall k :: k in ks ==> !EndsInSpace(k)
    ensures Map(DropDangling, ks) == ks
  {
  }

  /** Normalising stored keywords again trims each one, then drops repeats. The
      result is the input exactly when none ends in a space, and it is then stable. */
  lemma KeywordsAgain(ks: seq<string>)
    requires KeywordsStored(ks)
    ensures var again := SearchKeywords(KeywordList(ks));
            && KeywordsStored(again)
            && (forall k :: k in again ==> !EndsInSpace(k))
            && (again == ks <==> forall k :: k in ks ==> !EndsInSpace(k))
  {
    var trimmed := Map(DropDangling, ks);
    KeywordsTrimmed(ks);
    DedupFirstOccurrences(trimmed);
    if forall k :: k in ks ==> !EndsInSpace(k) {
      DropDanglingFixes(ks);
      DedupFixes(ks);
    }
  }

  /** Three passes of the keyword loop are two; two are one exactly when the
      first pass left no keyword ending in a space. */
  lemma KeywordPasses(value: KeywordInput)
    ensures var once := SearchKeywords(value);
            var twice := SearchKeywords(KeywordList(once));
            && SearchKeywords(KeywordList(twice)) == twice
            && (twice == once <==> forall k :: k in once ==> !EndsInSpace(k))
  {
    KeywordsAreStored(value);
    var once := SearchKeywords(value);
    KeywordsAgain(once);
    KeywordsAgain(SearchKeywords(KeywordList(once)));
  }

  lemma MapFixes<T>(f: T -> T, s: seq<T>)
    ensures Map(f, s) == s <==> forall x :: x in s ==> f(x) == x
  {
    if Map(f, s) == s {
      forall x | x in s
        ensures f(x) == x
      {
        var i :| 0 <= i < |s| && s[i] == x;
        assert Map(f, s)[i] == f(s[i]);
      }
    }
  }

  lemma FaqsAgain(fs: seq<Faq>)
    requires |fs| <= FAQ_MAX_ITEMS && forall f :: f in fs ==> FaqStored(f)
    ensures FaqList(Some(Map(ServeFaq, fs))) == Map(TrimFaq, fs)
    ensures Map(TrimFaq, fs) == fs <==> forall f :: f in fs ==> FaqClean(f)
    ensures forall f :: f in Map(TrimFaq, fs) ==> FaqStored(f) && FaqClean(f)
  {
    forall f | f in fs { FaqAgain(f); }
    FilterMapAll(FaqOf, ServeFaq, TrimFaq, fs);
    MapFixes(TrimFaq, fs);
  }

  /** A second pass over stored links drops those whose cut URL is no URL, trims the
      calls to action, and changes nothing exactly when there is nothing to trim and
      every URL is settled. */
  lemma LinksAgain(canon: Canon, ls: seq<Link>)
    requires ValidUrls(canon)
    requires |ls| <= LINKS_MAX && forall l :: l in ls ==> LinkStored(l)
    ensures var again := LinkList(canon, Some(Map(ServeLink, ls)));
            && again == FilterMap(SavedLink(canon), ls)
            && (again == ls <==> forall l :: l in ls ==> !EndsInSpace(l.cta) && UrlSettled(canon, l.url, LINK_URL_MAX))
            && |again| <= LINKS_MAX && forall l :: l in again ==> LinkStored(l) && !EndsInSpace(l.cta)
  {
    var again := LinkList(canon, Some(Map(ServeLink, ls)));
    forall l | l in ls
      ensures LinkOf(canon)(ServeLink(l)) == SavedLink(canon)(l)
      ensures SavedLink(canon)(l) == Some(l) <==> !EndsInSpace(l.cta) && UrlSettled(canon, l.url, LINK_URL_MAX)
    {
      LinkAgain(canon, l);
    }
    FilterMapAgree(LinkOf(canon), ServeLink, SavedLink(canon), ls);
    FilterMapLength(SavedLink(canon), ls);
    FilterMapFixes(SavedLink(canon), ls);
    forall l | l in again
      ensures LinkStored(l) && !EndsInSpace(l.cta)
    {
      LinkIsStored(canon, Some(Map(ServeLink, ls)), l);
      FilterMapFrom(SavedLink(canon), ls, l);
      var was :| was in ls && SavedLink(canon)(was) == Some(l);
      LinkAgain(canon, was);
    }
  }

  lemma MediasAgain(canon: Canon, ms: seq<Media>)
    requires ValidUrls(canon)
    requires |ms| <= URL_TITLE_LIST_MAX && forall m :: m in ms ==> MediaStored(m)
    ensures var again := MediaList(canon, Some(Map(ServeMedia, ms)));
            && again == FilterMap(SavedMedia(canon), ms)
            && (again == ms <==> forall m :: m in ms ==> !EndsInSpace(m.title) && canon(m.url) == Some(m.url))
            && |again| <= URL_TITLE_LIST_MAX && forall m :: m in again ==> MediaStored(m) && !EndsInSpace(m.title)
  {
    var again := MediaList(canon, Some(Map(ServeMedia, ms)));
    forall m | m in ms
      ensures MediaOf(canon)(ServeMedia(m)) == SavedMedia(canon)(m)
      ensures SavedMedia(canon)(m) == Some(m) <==> !EndsInSpace(m.title) && canon(m.url) == Some(m.url)
    {
      MediaAgain(canon, m);
    }
    FilterMapAgree(MediaOf(canon), ServeMedia, SavedMedia(canon), ms);
    FilterMapLength(SavedMedia(canon), ms);
    FilterMapFixes(SavedMedia(canon), ms);
    forall m | m in again
      ensures MediaStored(m) && !EndsInSpace(m.title)
    {
      MediaIsStored(canon, Some(Map(ServeMedia, ms)), m);
      FilterMapFrom(SavedMedia(canon), ms, m);
      var was :| was in ms && SavedMedia(canon)(was) == Some(m);
      MediaAgain(canon, was);
    }
  }

  lemma CoverAgain(canon: Canon, cover: Option<string>)
    requires ValidUrls(canon) && (cover.Some? ==> UrlStored(cover.value, COVER_IMAGE_URL_MAX))
    ensures CoverUrl(canon, cover) == cover <==> (cover.Some? ==> UrlSettled(canon, cover.value, COVER_IMAGE_URL_MAX))
    ensures CoverUrl(canon, cover).Some? ==> UrlStored(CoverUrl(canon, cover).value, COVER_IMAGE_URL_MAX)
  {
    assert ValidAt(canon, OrEmpty(cover));
  }

  // ---- Saving the served fields back ----------------------------------------------

  /** The editor form, filled from the row and submitted untouched. */
  function ServedBody(a: Article): Body {
    Body(Sent(Some(a.title)), Sent(Some(a.description)), Unset, Sent(Some(Known(a.category))), Unset, Unset, Unset,
         Sent(a.metaTitle), Sent(a.metaDescription), Sent(KeywordList(a.searchKeyword)),
         Sent(Some(Map(ServeLink, a.links))), Sent(Some(Map(ServeFaq, a.faq))),
         Sent(Some(Map(ServeMedia, a.instagram))), Sent(Some(Map(ServeMedia, a.youtube))), Sent(a.coverImageUrl))
  }

  /** The row after an untouched save, up to its stamp. */
  function Resaved(canon: Canon, a: Article): Article {
    a.(metaTitle := TrimMeta(a.metaTitle), metaDescription := TrimMeta(a.metaDescription),
       searchKeyword := SearchKeywords(KeywordList(a.searchKeyword)),
       links := FilterMap(SavedLink(canon), a.links), faq := Map(TrimFaq, a.faq),
       instagram := FilterMap(SavedMedia(canon), a.instagram), youtube := FilterMap(SavedMedia(canon), a.youtube),
       coverImageUrl := CoverUrl(canon, a.coverImageUrl))
  }

  function SaveAgain(canon: Canon, a: Article, author: Author, now: int): Article {
    Updated(a, DataFor(canon, ServedBody(a), Some(author), None), now)
  }

  ghost predicate WrittenBy(a: Article, author: Author) {
    a.authorId == Some(author.id) && a.authorName == Some(author.name)
  }

  lemma ResavedStored(canon: Canon, a: Article)
    requires ValidUrls(canon) && Stored(a)
    ensures Stored(Resaved(canon, a)) && Clean(Resaved(canon, a))
  {
    MetaAgain(a.metaTitle, META_TITLE_MAX);
    MetaAgain(a.metaDescription, META_DESCRIPTION_MAX);
    KeywordsAgain(a.searchKeyword);
    FaqsAgain(a.faq);
    LinksAgain(canon, a.links);
    MediasAgain(canon, a.instagram);
    MediasAgain(canon, a.youtube);
    CoverAgain(canon, a.coverImageUrl);
  }

  lemma TextsFix(canon: Canon, a: Article)
    requires ValidUrls(canon) && Stored(a)
    ensures var b := Resaved(canon, a);
            b.metaTitle == a.metaTitle && b.metaDescription == a.metaDescription && b.searchKeyword == a.searchKeyword
            <==> (a.metaTitle.Some? ==> !EndsInSpace(a.metaTitle.value))
                 && (a.metaDescription.Some? ==> !EndsInSpace(a.metaDescription.value))
                 && (forall k :: k in a.searchKeyword ==> !EndsInSpace(k))
  {
    MetaAgain(a.metaTitle, META_TITLE_MAX);
    MetaAgain(a.metaDescription, META_DESCRIPTION_MAX);
    KeywordsAgain(a.searchKeyword);
  }

  lemma ListsFix(canon: Canon, a: Article)
    requires ValidUrls(canon) && Stored(a)
    ensures var b := Resaved(canon, a);
            && (b.faq == a.faq <==> forall f :: f in a.faq ==> FaqClean(f))
            && (b.links == a.links <==>
                  forall l :: l in a.links ==> !EndsInSpace(l.cta) && UrlSettled(canon, l.url, LINK_URL_MAX))
            && (b.instagram == a.instagram <==>
                  forall m :: m in a.instagram ==> !EndsInSpace(m.title) && canon(m.url) == Some(m.url))
            && (b.youtube == a.youtube <==>
                  forall m :: m in a.youtube ==> !EndsInSpace(m.title) && canon(m.url) == Some(m.url))
  {
    FaqsAgain(a.faq);
    LinksAgain(canon, a.links);
    MediasAgain(canon, a.instagram);
    MediasAgain(canon, a.youtube);
  }

  /** A resaved row is the old one when each column that a save writes is. */
  lemma SameColumns(canon: Canon, a: Article)
    ensures var b := Resaved(canon, a);
            b == a <==>
              && b.metaTitle == a.metaTitle && b.metaDescription == a.metaDescription
              && b.searchKeyword == a.searchKeyword
              && b.faq == a.faq && b.links == a.links && b.instagram == a.instagram && b.youtube == a.youtube
              && b.coverImageUrl == a.coverImageUrl
  {
  }

  lemma ResavedFixes(canon: Canon, a: Article)
    requires ValidUrls(canon) && Stored(a)
    ensures Resaved(canon, a) == a <==> Clean(a) && UrlsSettled(canon, a)
  {
    SameColumns(canon, a);
    TextsFix(canon, a);
    ListsFix(canon, a);
    CoverAgain(canon, a.coverImageUrl);
  }

  lemma MergeServed(canon: Canon, a: Article, author: Author)
    requires ValidUrls(canon) && Stored(a) && WrittenBy(a, author)
    ensures Merge(a, DataFor(canon, ServedBody(a), Some(author), None)) == Resaved(canon, a)
  {
    MetaAgain(a.metaTitle, META_TITLE_MAX);
    MetaAgain(a.metaDescription, META_DESCRIPTION_MAX);
    FaqsAgain(a.faq);
    LinksAgain(canon, a.links);
    MediasAgain(canon, a.instagram);
    MediasAgain(canon, a.youtube);
  }

  lemma StampTells(b: Article, a: Article, now: int)
    requires b.updatedAt == a.updatedAt
    ensures b.(updatedAt := now) == a ==> b == a
  {
  }

  lemma SaveResaves(canon: Canon, a: Article, author: Author, now: int)
    requires ValidUrls(canon) && Stored(a) && WrittenBy(a, author)
    ensures var same := Clean(a) && UrlsSettled(canon, a);
            && SaveAgain(canon, a, author, now) == (if same then a else Resaved(canon, a).(updatedAt := now))
            && (SaveAgain(canon, a, author, now) == a <==> same)
  {
    MergeServed(canon, a, author);
    ResavedFixes(canon, a);
    StampTells(Resaved(canon, a), a, now);
  }

  /** An untouched save leaves the whole row alone exactly when no stored capped
      text ends in whitespace and every stored URL is settled; otherwise it moves
      `updated_at`. Texts are clean after one such save, so a second one changes
      nothing exactly when the URLs are settled by then. */
  lemma UntouchedSave(canon: Canon, a: Article, author: Author, now: int, later: int)
    requires ValidUrls(canon) && Stored(a) && WrittenBy(a, author)
    ensures SaveAgain(canon, a, author, now) == a <==> Clean(a) && UrlsSettled(canon, a)
    ensures !(Clean(a) && UrlsSettled(canon, a)) ==> SaveAgain(canon, a, author, now).updatedAt == now
    ensures var b := SaveAgain(canon, a, author, now);
            && Stored(b) && Clean(b) && WrittenBy(b, author)
            && (SaveAgain(canon, b, author, later) == b <==> UrlsSettled(canon, b))
  {
    SaveResaves(canon, a, author, now);
    ResavedStored(canon, a);
    var b := SaveAgain(canon, a, author, now);
    if !(Clean(a) && UrlsSettled(canon, a)) {
      SaveIgnoresStamp(Resaved(canon, a), b);
    }
    SaveResaves(canon, b, author, later);
  }

  /** The request of an untouched editor form: every served field as it was served, and
      no slug, status, date or HTML. */
  predicate SendsBack(body: Body, a: Article) {
    && body.title == Sent(Some(a.title)) && body.description == Sent(Some(a.description))
    && body.category == Sent(Some(Known(a.category)))
    && body.metaTitle == Sent(a.metaTitle) && body.metaDescription == Sent(a.metaDescription)
    && body.searchKeyword == Sent(KeywordList(a.searchKeyword)) && body.coverImageUrl == Sent(a.coverImageUrl)
    && body.slug == Unset && body.status == Unset && body.publishedAt == Unset && body.htmlContent == Unset
    && body.links.Sent? && body.links.value.Some? && |body.links.value.value| == |a.links|
    && (forall k :: 0 <= k < |a.links| ==> body.links.value.value[k] == LinkDict(a.links[k].cta, a.links[k].url))
    && body.faq.Sent? && body.faq.value.Some? && |body.faq.value.value| == |a.faq|
    && (forall k :: 0 <= k < |a.faq| ==> body.faq.value.value[k] == FaqDict(a.faq[k].question, a.faq[k].answer))
    && body.instagram.Sent? && body.instagram.value.Some? && |body.instagram.value.value| == |a.instagram|
    && (forall k :: 0 <= k < |a.instagram| ==>
          body.instagram.value.value[k] == MediaDict(a.instagram[k].url, "", a.instagram[k].title))
    && body.youtube.Sent? && body.youtube.value.Some? && |body.youtube.value.value| == |a.youtube|
    && (forall k :: 0 <= k < |a.youtube| ==>
          body.youtube.value.value[k] == MediaDict(a.youtube[k].url, "", a.youtube[k].title))
  }

  lemma SendsBackServed(body: Body, a: Article)
    requires SendsBack(body, a)
    ensures body == ServedBody(a)
  {
    var served := ServedBody(a);
    assert body.links.value.value == served.links.value.value;
    assert body.faq.value.value == served.faq.value.value;
    assert body.instagram.value.value == served.instagram.value.value;
    assert body.youtube.value.value == served.youtube.value.value;
  }

  lemma EditSaves(canon: Canon, a: Article, author: Author, routeNow: int, now: int)
    ensures Posts.EditedRow(canon, a, ServedBody(a), author, routeNow, now) == SaveAgain(canon, a, author, now)
  {
  }

  lemma FoundBySlug(t: Posts.Table, i: nat)
    requires Posts.WellFormed(t) && i < |t.rows|
    ensures Posts.FindSlug(t.rows, t.rows[i].slug) == Some(i)
  {
  }

  lemma UntouchedPlan(canon: Canon, t: Posts.Table, i: nat, author: Author, routeNow: int, now: int)
    requires Posts.WellFormed(t) && i < |t.rows|
    ensures var a := t.rows[i];
            Posts.Plan(canon, t, Posts.UpdatePost(a.slug, ServedBody(a), author, routeNow, now))
            == Posts.Replace(i, Posts.EditedRow(canon, a, ServedBody(a), author, routeNow, now))
  {
    FoundBySlug(t, i);
  }

  /** The update request of an untouched editor form is not refused, and the row it writes
      is the row itself exactly when no capped text ends in whitespace and every URL is settled. */
  lemma UntouchedUpdate(canon: Canon, t: Posts.Table, i: nat, body: Body, author: Author, routeNow: int, now: int)
    requires ValidUrls(canon) && Posts.WellFormed(t) && i < |t.rows| && SendsBack(body, t.rows[i])
    requires Stored(t.rows[i]) && t.rows[i].authorId == Some(author.id) && t.rows[i].authorName == Some(author.name)
    ensures var effect := Posts.Plan(canon, t, Posts.UpdatePost(t.rows[i].slug, body, author, routeNow, now));
            && effect.Replace? && effect.index == i
            && (effect.article == t.rows[i] <==> Clean(t.rows[i]) && UrlsSettled(canon, t.rows[i]))
            && (effect.article != t.rows[i] ==> effect.article.updatedAt == now)
  {
    SendsBackServed(body, t.rows[i]);
    UntouchedPlan(canon, t, i, author, routeNow, now);
    EditSaves(canon, t.rows[i], author, routeNow, now);
    UntouchedSave(canon, t.rows[i], author, now, now);
  }

  /** Stored shapes say nothing about the stamp. */
  lemma SaveIgnoresStamp(a: Article, b: Article)
    requires Stored(a) && Clean(a) && b == a.(updatedAt := b.updatedAt)
    ensures Stored(b) && Clean(b)
  {
  }

  lemma LinksSettle(canon: Canon, ls: seq<Link>)
    ensures (forall l :: l in FilterMap(SavedLink(canon), ls) ==> UrlSettled(canon, l.url, LINK_URL_MAX))
            <==> forall l :: l in ls ==> UrlSettles(canon, l.url, LINK_URL_MAX)
  {
    var again := FilterMap(SavedLink(canon), ls);
    forall l | l in ls && SavedLink(canon)(l).Some?
      ensures SavedLink(canon)(l).value in again
    {
      FilterMapHolds(SavedLink(canon), ls, l, SavedLink(canon)(l).value);
    }
    forall l | l in again
      ensures exists was :: was in ls && SavedLink(canon)(was) == Some(l)
    {
      FilterMapFrom(SavedLink(canon), ls, l);
    }
  }

  lemma MediasSettle(canon: Canon, ms: seq<Media>)
    ensures (forall m :: m in FilterMap(SavedMedia(canon), ms) ==> canon(m.url) == Some(m.url))
            <==> forall m :: m in ms ==> MediaUrlSettles(canon, m.url)
  {
    var again := FilterMap(SavedMedia(canon), ms);
    forall m | m in ms && SavedMedia(canon)(m).Some?
      ensures SavedMedia(canon)(m).value in again
    {
      FilterMapHolds(SavedMedia(canon), ms, m, SavedMedia(canon)(m).value);
    }
    forall m | m in again
      ensures exists was :: was in ms && SavedMedia(canon)(was) == Some(m)
    {
      FilterMapFrom(SavedMedia(canon), ms, m);
    }
  }

  lemma ResavedSettledIff(canon: Canon, a: Article)
    requires ValidUrls(canon)
    ensures UrlsSettled(canon, Resaved(canon, a)) <==> RowSettles(canon, a)
  {
    LinksSettle(canon, a.links);
    MediasSettle(canon, a.instagram);
    MediasSettle(canon, a.youtube);
  }

  lemma SettledSettles(canon: Canon, a: Article)
    requires UrlsSettled(canon, a)
    ensures RowSettles(canon, a)
  {
  }

  /** A second untouched save changes nothing exactly when every stored URL was
      settled, or is once it has been normalised again. */
  lemma SecondSave(canon: Canon, a: Article, author: Author, now: int, later: int)
    requires ValidUrls(canon) && Stored(a) && WrittenBy(a, author)
    ensures var b := SaveAgain(canon, a, author, now);
            SaveAgain(canon, b, author, later) == b <==> RowSettles(canon, a)
  {
    UntouchedSave(canon, a, author, now, later);
    SaveResaves(canon, a, author, now);
    if Clean(a) && UrlsSettled(canon, a) {
      SettledSettles(canon, a);
    } else {
      ResavedSettledIff(canon, a);
      SettledIgnoresStamp(canon, Resaved(canon, a), SaveAgain(canon, a, author, now));
    }
  }

  lemma SettledIgnoresStamp(canon: Canon, a: Article, b: Article)
    requires b == a.(updatedAt := b.updatedAt)
    ensures UrlsSettled(canon, a) <==> UrlsSettled(canon, b)
  {
  }

  // ---- Rows that an untouched save moves --------------------------------------------

  const SMALL_BODY := Body(
    Sent(Some("a")), Unset, Sent(Some("a")), Unset, Unset, Unset, Unset, Unset, Unset,
    Unset, Unset, Unset, Unset, Unset, Unset)

  /** The row that a create request leaves in an empty table. */
  function FirstRow(canon: Canon, body: Body, author: Author): Article {
    Created(1, DataFor(canon, body, Some(author), None), 0)
  }

  lemma FirstRowIsReachable(canon: Canon, body: Body, author: Author)
    requires body.slug == Sent(Some("a")) && body.status.Unset? && ValidUrls(canon)
    ensures Posts.Step(canon, Posts.Table([], 1), Posts.CreatePost(body, author, 0, 0)).rows
            == [FirstRow(canon, body, author)]
    ensures Stored(FirstRow(canon, body, author)) && WrittenBy(FirstRow(canon, body, author), author)
  {
    CreatedStored(canon, 1, body, author, None, 0);
    assert Posts.SlugRequired(body);
  }

  lemma SolidIsTidy(n: nat)
    requires n > 0
    ensures var s := seq(n, _ => 'a') + " b";
            Tidy(s) && !EndsInSpace(s) && IsLower(s)
  {
  }

  /** A keyword of 79 letters, a space and one more letter is stored with the space. */
  lemma DanglingKeyword()
    ensures var item := seq(79, _ => 'a') + " b";
            SearchKeywords(KeywordList([item])) == [item[..80]] && EndsInSpace(item[..80])
  {
    var item := seq(79, _ => 'a') + " b";
    SolidIsTidy(79);
    CollapseTidy(item);
    LowerFixes(item);
    assert KeywordOf(item) == Some(item[..80]);
    assert FilterMap(KeywordOf, [item][..0]) == [];
    assert FilterMap(KeywordOf, [item]) == [item[..80]];
    assert Dedup([item[..80]][..0]) == [];
  }

  /** A cut can fall on a space: an article created with that keyword is moved by its
      first untouched save. */
  lemma KeywordCutCanDangle(canon: Canon, author: Author, now: int)
    requires ValidUrls(canon)
    ensures var item := seq(79, _ => 'a') + " b";
            var a := FirstRow(canon, SMALL_BODY.(searchKeyword := Sent(KeywordList([item]))), author);
            SaveAgain(canon, a, author, now) != a && SaveAgain(canon, a, author, now).updatedAt == now
  {
    var item := seq(79, _ => 'a') + " b";
    var body := SMALL_BODY.(searchKeyword := Sent(KeywordList([item])));
    var a := FirstRow(canon, body, author);
    DanglingKeyword();
    FirstRowIsReachable(canon, body, author);
    assert a.searchKeyword == [item[..80]];
    assert item[..80] in a.searchKeyword;
    UntouchedSave(canon, a, author, now, now);
  }

  function DropLast(s: string, c: char): string {
    if s != "" && s[|s| - 1] == c then s[..|s| - 1] else s
  }

  /** A URL normaliser that, like the service's, trims first and drops empty delimiters
      after, so that what it returns can end in whitespace or in a delimiter again. */
  function DropDelimiters(s: string): Option<string> {
    var url := DropLast(DropLast(Strip(s), '#'), '?');
    if url == "" then None else Some(url)
  }

  lemma DropDelimitersIsValid()
    ensures ValidUrls(DropDelimiters)
  {
    assert Strip("") == "";
    forall s
      ensures ValidAt(DropDelimiters, s)
    {
    }
  }

  lemma Unspaced(s: string)
    requires !StartsInSpace(s) && !EndsInSpace(s)
    ensures DropDelimiters(s) == (var url := DropLast(DropLast(s, '#'), '?'); if url == "" then None else Some(url))
  {
    StripFixes(s);
  }

  /** The row of a create request with nothing but a cover, and that row later. */
  function CoverRow(canon: Canon, author: Author, cover: string, stamp: int): Article {
    FirstRow(canon, SMALL_BODY, author).(coverImageUrl := Some(cover), updatedAt := stamp)
  }

  lemma CoverRowIsFirst(canon: Canon, author: Author, url: string)
    requires ValidUrls(canon) && canon(url).Some?
    ensures FirstRow(canon, SMALL_BODY.(coverImageUrl := Sent(Some(url))), author)
            == CoverRow(canon, author, Take(canon(url).value, COVER_IMAGE_URL_MAX), 0)
  {
  }

  lemma SaveMovesCover(canon: Canon, author: Author, cover: string, again: string, stamp: int, now: int)
    requires ValidUrls(canon) && UrlStored(cover, COVER_IMAGE_URL_MAX)
    requires CoverUrl(canon, Some(cover)) == Some(again) && again != cover
    ensures Clean(CoverRow(canon, author, cover, stamp))
    ensures SaveAgain(canon, CoverRow(canon, author, cover, stamp), author, now)
            == CoverRow(canon, author, again, now)
  {
    CoverRowShape(canon, author, cover, stamp);
    SaveResaves(canon, CoverRow(canon, author, cover, stamp), author, now);
  }

  lemma CoverRowShape(canon: Canon, author: Author, cover: string, stamp: int)
    requires ValidUrls(canon) && UrlStored(cover, COVER_IMAGE_URL_MAX)
    ensures var a := CoverRow(canon, author, cover, stamp);
            && Stored(a) && Clean(a) && WrittenBy(a, author)
            && Resaved(canon, a) == a.(coverImageUrl := CoverUrl(canon, Some(cover)))
  {
    FirstRowIsReachable(canon, SMALL_BODY, author);
  }

  /** A cut can fall after a question mark: an article created with such an over-long
      cover, and no text that ends in whitespace, is moved by its first untouched save. */
  lemma CoverCutCanMove(author: Author, now: int)
    ensures var url := seq(2047, _ => 'a') + "?b";
            var a := FirstRow(DropDelimiters, SMALL_BODY.(coverImageUrl := Sent(Some(url))), author);
            && Clean(a) && a.coverImageUrl == Some(url[..2048])
            && SaveAgain(DropDelimiters, a, author, now) == a.(coverImageUrl := Some(url[..2047]), updatedAt := now)
  {
    var url := seq(2047, _ => 'a') + "?b";
    DropDelimitersIsValid();
    LongCover();
    CoverRowIsFirst(DropDelimiters, author, url);
    SaveMovesCover(DropDelimiters, author, url[..2048], url[..2047], 0, now);
  }

  lemma LongCover()
    ensures var url := seq(2047, _ => 'a') + "?b";
            && DropDelimiters(url) == Some(url)
            && CoverUrl(DropDelimiters, Some(url[..2048])) == Some(url[..2047])
  {
    var url := seq(2047, _ => 'a') + "?b";
    Unspaced(url);
    Unspaced(url[..2048]);
    assert url[..2048][..2047] == url[..2047];
  }

  /** A URL far within its cap can take two saves: creating drops the `#` and a space
      ends up last, the first save trims it and drops the `?`, the second trims again. */
  lemma ShortCoverMovesTwice(author: Author, now: int, later: int)
    ensures var a := FirstRow(DropDelimiters, SMALL_BODY.(coverImageUrl := Sent(Some("http://a/ ? #"))), author);
            var b := SaveAgain(DropDelimiters, a, author, now);
            && Clean(a) && a.coverImageUrl == Some("http://a/ ? ")
            && b == a.(coverImageUrl := Some("http://a/ "), updatedAt := now)
            && SaveAgain(DropDelimiters, b, author, later)
               == a.(coverImageUrl := Some("http://a/"), updatedAt := later)
  {
    DropDelimitersIsValid();
    ShortCover();
    CoverRowIsFirst(DropDelimiters, author, "http://a/ ? #");
    SaveMovesCover(DropDelimiters, author, "http://a/ ? ", "http://a/ ", 0, now);
    SaveMovesCover(DropDelimiters, author, "http://a/ ", "http://a/", now, later);
  }

  lemma ShortCover()
    ensures DropDelimiters("http://a/ ? #") == Some("http://a/ ? ")
    ensures DropDelimiters("http://a/ ? ") == Some("http://a/ ")
    ensures DropDelimiters("http://a/ ") == Some("http://a/")
  {
    Unspaced("http://a/ ? #");
    assert "http://a/ ? #"[..12] == "http://a/ ? ";
    SpaceLast("http://a/ ?");
    assert "http://a/ ?" + " " == "http://a/ ? ";
    assert "http://a/ ?"[..10] == "http://a/ ";
    SpaceLast("http://a/");
    assert "http://a/" + " " == "http://a/ ";
  }

  /** Trimming takes a space off the end of a text that is otherwise trimmed. */
  lemma SpaceLast(s: string)
    requires s != "" && !StartsInSpace(s) && !EndsInSpace(s)
    ensures Strip(s + " ") == s
  {
    assert LStrip(s + " ") == s + " ";
    assert (s + " ")[..|s|] == s;
    assert RStrip(s + " ") == RStrip(s) == s;
  }

  // ---- Every reachable row -----------------------------------------------------------

  /** What every row of a run keeps: stored shapes, and settled URLs if `settling`. */
  ghost predicate Kept(canon: Canon, settling: bool, a: Article) {
    Stored(a) && (settling ==> UrlsSettled(canon, a))
  }

  ghost predicate AllKept(canon: Canon, settling: bool, t: Posts.Table) {
    forall i :: 0 <= i < |t.rows| ==> Kept(canon, settling, t.rows[i])
  }

  /** What the requests must meet: nothing, or URLs that settle at once if `settling`. */
  ghost predicate Meets(canon: Canon, settling: bool, e: Posts.Event) {
    && ValidUrls(canon)
    && (settling && (e.CreatePost? || e.UpdatePost? || e.PublishPost?) ==> BodySettles(canon, e.body))
  }

  /** What `Kept` says nothing about. */
  lemma KeptIgnoresWorkflow(canon: Canon, settling: bool, a: Article, b: Article)
    requires Kept(canon, settling, a)
    requires b == a.(id := b.id, status := b.status, publishedAt := b.publishedAt, updatedAt := b.updatedAt)
    ensures Kept(canon, settling, b)
  {
  }

  lemma BlankRowStored(id: int, now: int)
    ensures Stored(Created(id, NO_DATA, now))
  {
    assert Strip("") == "";
    StripFixes("Untitled");
  }

  lemma CreatedStored(canon: Canon, id: int, body: Body, author: Author, rendered: Option<string>, now: int)
    requires ValidUrls(canon)
    ensures Stored(Created(id, DataFor(canon, body, Some(author), rendered), now))
  {
    BlankRowStored(id, now);
    WritesKeepStored(canon, Created(id, NO_DATA, now), body, Some(author), rendered);
  }

  lemma MergeKept(canon: Canon, settling: bool, a: Article, body: Body, author: Author, rendered: Option<string>)
    requires ValidUrls(canon) && Kept(canon, settling, a) && (settling ==> BodySettles(canon, body))
    ensures Kept(canon, settling, Merge(a, DataFor(canon, body, Some(author), rendered)))
  {
    WritesKeepStored(canon, a, body, Some(author), rendered);
    if settling {
      WritesKeepSettled(canon, a, body, Some(author), rendered);
    }
  }

  lemma DatingMovesWorkflow(a: Article, data: Data, routeNow: int, now: int)
    ensures var b := Updated(a, Posts.DateFirstPublish(data, a.publishedAt, routeNow), now);
            b == Merge(a, data).(publishedAt := b.publishedAt, updatedAt := b.updatedAt)
  {
  }

  lemma EditedKept(canon: Canon, settling: bool, a: Article, body: Body, author: Author, routeNow: int, now: int)
    requires ValidUrls(canon) && Kept(canon, settling, a) && (settling ==> BodySettles(canon, body))
    ensures Kept(canon, settling, Posts.EditedRow(canon, a, body, author, routeNow, now))
  {
    MergeKept(canon, settling, a, body, author, None);
    DatingMovesWorkflow(a, DataFor(canon, body, Some(author), None), routeNow, now);
    KeptIgnoresWorkflow(canon, settling, Merge(a, DataFor(canon, body, Some(author), None)),
                        Posts.EditedRow(canon, a, body, author, routeNow, now));
  }

  lemma InsertedKept(canon: Canon, settling: bool, t: Posts.Table, e: Posts.Event)
    requires Meets(canon, settling, e) && Posts.Plan(canon, t, e).Insert?
    ensures Kept(canon, settling, Posts.Plan(canon, t, e).article)
  {
    var rendered := if e.PublishPost? then Some(e.rendered) else None;
    var data := DataFor(canon, e.body, Some(e.author), rendered);
    BlankRowStored(t.nextId, e.now);
    MergeKept(canon, settling, Created(t.nextId, NO_DATA, e.now), e.body, e.author, rendered);
    InsertedIsCreated(canon, t, e, data);
    KeptIgnoresWorkflow(canon, settling, Created(t.nextId, data, e.now), Posts.Plan(canon, t, e).article);
  }

  /** An inserted row is the created one, up to its status and publication date. */
  lemma InsertedIsCreated(canon: Canon, t: Posts.Table, e: Posts.Event, data: Data)
    requires Posts.Plan(canon, t, e).Insert?
    requires data == DataFor(canon, e.body, Some(e.author), if e.PublishPost? then Some(e.rendered) else None)
    ensures var a := Posts.Plan(canon, t, e).article;
            a == Created(t.nextId, data, e.now)
                   .(status := a.status, publishedAt := a.publishedAt, updatedAt := a.updatedAt)
  {
  }

  lemma ReplacedKept(canon: Canon, settling: bool, t: Posts.Table, e: Posts.Event)
    requires AllKept(canon, settling, t) && Meets(canon, settling, e) && Posts.Plan(canon, t, e).Replace?
    ensures Kept(canon, settling, Posts.Plan(canon, t, e).article)
  {
    var a := t.rows[Posts.Plan(canon, t, e).index];
    if e.UpdatePost? {
      EditedKept(canon, settling, a, e.body, e.author, e.routeNow, e.now);
    } else {
      KeptIgnoresWorkflow(canon, settling, a, WithStatus(a, e.status, e.now));
    }
  }

  lemma ApplyKept(canon: Canon, settling: bool, t: Posts.Table, effect: Posts.Effect)
    requires AllKept(canon, settling, t)
    requires effect.Insert? || effect.Replace? ==> Kept(canon, settling, effect.article)
    ensures AllKept(canon, settling, Posts.Apply(t, effect))
  {
  }

  lemma StepKept(canon: Canon, settling: bool, t: Posts.Table, e: Posts.Event)
    requires AllKept(canon, settling, t) && Meets(canon, settling, e)
    ensures AllKept(canon, settling, Posts.Step(canon, t, e))
  {
    var effect := Posts.Plan(canon, t, e);
    if effect.Insert? {
      InsertedKept(canon, settling, t, e);
    } else if effect.Replace? {
      ReplacedKept(canon, settling, t, e);
    }
    ApplyKept(canon, settling, t, effect);
  }

  lemma {:induction false} RunKept(canon: Canon, settling: bool, t: Posts.Table, events: seq<Posts.Event>)
    requires AllKept(canon, settling, t) && forall i :: 0 <= i < |events| ==> Meets(canon, settling, events[i])
    ensures AllKept(canon, settling, Posts.Run(canon, t, events))
  {
    if events != [] {
      var n := |events| - 1;
      RunKept(canon, settling, t, events[..n]);
      StepKept(canon, settling, Posts.Run(canon, t, events[..n]), events[n]);
    }
  }

  /** Whatever the requests hold, every row of every run from an empty table has
      stored shapes: the premise of the untouched-save theorem. */
  lemma RunKeepsStored(canon: Canon, events: seq<Posts.Event>)
    requires ValidUrls(canon)
    ensures forall a :: a in Posts.Run(canon, Posts.Table([], 1), events).rows ==> Stored(a)
  {
    RunKept(canon, false, Posts.Table([], 1), events);
  }

  /** If moreover every URL of every request settles at once, an untouched save of any
      row is a no-op exactly when no capped text ends in whitespace. */
  lemma SettlingRunsSave(canon: Canon, events: seq<Posts.Event>, a: Article, author: Author, now: int)
    requires ValidUrls(canon) && forall i :: 0 <= i < |events| ==> Meets(canon, true, events[i])
    requires a in Posts.Run(canon, Posts.Table([], 1), events).rows && WrittenBy(a, author)
    ensures SaveAgain(canon, a, author, now) == a <==> Clean(a)
  {
    RunKept(canon, true, Posts.Table([], 1), events);
    UntouchedSave(canon, a, author, now, now);
  }
}
