/** From a validated request body to column values, and from column values onto a row. */
module Writes {
  import opened Outcomes
  import opened Text
  import opened Articles
  import opened Payload

  /** A public category slug, already looked up. */
  datatype CategorySlug = Known(category: Category) | Unknown

  /** The fields of the create, update and publish bodies. HTML is sanitised already. */
  datatype Body = Body(
    title: Sent<Option<string>>,
    description: Sent<Option<string>>,
    slug: Sent<Option<string>>,
    category: Sent<Option<CategorySlug>>,
    status: Sent<Option<Status>>,
    publishedAt: Sent<Option<int>>,
    htmlContent: Sent<string>,
    metaTitle: Sent<Option<string>>,
    metaDescription: Sent<Option<string>>,
    searchKeyword: Sent<KeywordInput>,
    links: Sent<Option<seq<LinkInput>>>,
    faq: Sent<Option<seq<FaqInput>>>,
    instagram: Sent<Option<seq<MediaInput>>>,
    youtube: Sent<Option<seq<MediaInput>>>,
    coverImageUrl: Sent<Option<string>>)

  /** The keyword arguments handed to the ORM: only the keys to write are present. */
  datatype Data = Data(
    title: Sent<string>,
    description: Sent<string>,
    slug: Sent<string>,
    category: Sent<Category>,
    status: Sent<Status>,
    publishedAt: Sent<Option<int>>,
    htmlContent: Sent<string>,
    metaTitle: Sent<Option<string>>,
    metaDescription: Sent<Option<string>>,
    searchKeyword: Sent<seq<string>>,
    links: Sent<seq<Link>>,
    faq: Sent<seq<Faq>>,
    instagram: Sent<seq<Media>>,
    youtube: Sent<seq<Media>>,
    coverImageUrl: Sent<Option<string>>,
    authorId: Sent<Option<string>>,
    authorName: Sent<Option<string>>)

  const NO_DATA := Data(Unset, Unset, Unset, Unset, Unset, Unset, Unset, Unset, Unset,
                        Unset, Unset, Unset, Unset, Unset, Unset, Unset, Unset)

  /** The signed-in author; `id` is the decimal text of the user id. */
  datatype Author = Author(id: string, name: string)

  function Plain(field: Sent<Option<string>>): Sent<string> {
    if field.Sent? then Sent(Strip(OrEmpty(field.value))) else Unset
  }

  /** The value every key of the dictionary ends up with. */
  function DataFor(canon: Canon, body: Body, author: Option<Author>, rendered: Option<string>): Data {
    Data(
      Plain(body.title),
      Plain(body.description),
      if body.slug.Sent? && OrEmpty(body.slug.value) != "" then Sent(Lower(Strip(OrEmpty(body.slug.value)))) else Unset,
      match body.category {
        case Sent(Some(Known(c))) => Sent(c)
        case Sent(Some(Unknown)) => Sent(Blog)
        case _ => Unset
      },
      if body.status.Sent? && body.status.value.Some? then Sent(body.status.value.value) else Unset,
      body.publishedAt,
      if rendered.Some? then Sent(rendered.value) else body.htmlContent,
      if body.metaTitle.Sent? then Sent(MetaTitle(body.metaTitle.value)) else Unset,
      if body.metaDescription.Sent? then Sent(MetaDescription(body.metaDescription.value)) else Unset,
      if body.searchKeyword.Sent? then Sent(SearchKeywords(body.searchKeyword.value)) else Unset,
      if body.links.Sent? then Sent(LinkList(canon, body.links.value)) else Unset,
      if body.faq.Sent? then Sent(FaqList(body.faq.value)) else Unset,
      if body.instagram.Sent? then Sent(MediaList(canon, body.instagram.value)) else Unset,
      if body.youtube.Sent? then Sent(MediaList(canon, body.youtube.value)) else Unset,
      if body.coverImageUrl.Sent? then Sent(CoverUrl(canon, body.coverImageUrl.value)) else Unset,
      if author.Some? then Sent(Some(author.value.id)) else Unset,
      if author.Some? then Sent(Some(author.value.name)) else Unset)
  }

  /** The title, description, slug and category keys. */
  method BuildHead(body: Body) returns (data: Data)
    ensures var all := DataFor(_ => None, body, None, None);
            data == NO_DATA.(title := all.title, description := all.description,
                             slug := all.slug, category := all.category)
  {
    data := NO_DATA;
    if body.title.Sent? {
      data := data.(title := Sent(Strip(OrEmpty(body.title.value))));
    }
    if body.description.Sent? {
      data := data.(description := Sent(Strip(OrEmpty(body.description.value))));
    }
    if body.slug.Sent? && OrEmpty(body.slug.value) != "" {
      data := data.(slug := Sent(Lower(Strip(OrEmpty(body.slug.value)))));
    }
    if body.category.Sent? && body.category.value.Some? {
      var resolved := body.category.value.value;
      data := data.(category := Sent(if resolved.Known? then resolved.category else Blog));
    }
  }

  /** The workflow and body keys, added to the dictionary built so far. */
  method BuildWorkflow(body: Body, rendered: Option<string>, head: Data) returns (data: Data)
    requires head.status.Unset? && head.publishedAt.Unset? && head.htmlContent.Unset?
    ensures var all := DataFor(_ => None, body, None, rendered);
            data == head.(status := all.status, publishedAt := all.publishedAt, htmlContent := all.htmlContent)
  {
    data := head;
    if body.status.Sent? && body.status.value.Some? {
      data := data.(status := Sent(body.status.value.value));
    }
    if body.publishedAt.Sent? {
      data := data.(publishedAt := body.publishedAt);
    }
    if rendered.Some? {
      data := data.(htmlContent := Sent(rendered.value));
    } else if body.htmlContent.Sent? {
      data := data.(htmlContent := body.htmlContent);
    }
  }

  /** The search and structured-list keys, added to the dictionary built so far. */
  method BuildLists(canon: Canon, body: Body, head: Data) returns (data: Data)
    requires head.searchKeyword.Unset? && head.links.Unset? && head.faq.Unset?
    ensures data == head.(searchKeyword := DataFor(canon, body, None, None).searchKeyword,
                          links := DataFor(canon, body, None, None).links,
                          faq := DataFor(canon, body, None, None).faq)
  {
    data := head;
    if body.searchKeyword.Sent? {
      var keywords := NormaliseSearchKeyword(body.searchKeyword.value);
      data := data.(searchKeyword := Sent(keywords));
    }
    if body.links.Sent? {
      var links := NormaliseArticleLinks(canon, body.links.value);
      data := data.(links := Sent(links));
    }
    if body.faq.Sent? {
      var faq := NormaliseFaqList(body.faq.value);
      data := data.(faq := Sent(faq));
    }
  }

  /** The media keys, added to the dictionary built so far. */
  method BuildMedia(canon: Canon, body: Body, head: Data) returns (data: Data)
    requires head.instagram.Unset? && head.youtube.Unset? && head.coverImageUrl.Unset?
    ensures data == head.(instagram := DataFor(canon, body, None, None).instagram,
                          youtube := DataFor(canon, body, None, None).youtube,
                          coverImageUrl := DataFor(canon, body, None, None).coverImageUrl)
  {
    data := head;
    if body.instagram.Sent? {
      var instagram := NormaliseUrlTitleList(canon, body.instagram.value);
      data := data.(instagram := Sent(instagram));
    }
    if body.youtube.Sent? {
      var youtube := NormaliseUrlTitleList(canon, body.youtube.value);
      data := data.(youtube := Sent(youtube));
    }
    if body.coverImageUrl.Sent? {
      data := data.(coverImageUrl := Sent(CoverUrl(canon, body.coverImageUrl.value)));
    }
  }

  /** `build_article_data`: fills the dictionary key by key. */
  method BuildArticleData(canon: Canon, body: Body, author: Option<Author>, rendered: Option<string>)
    returns (data: Data)
    ensures data == DataFor(canon, body, author, rendered)
  {
    data := BuildHead(body);
    data := BuildWorkflow(body, rendered, data);
    if body.metaTitle.Sent? {
      data := data.(metaTitle := Sent(MetaTitle(body.metaTitle.value)));
    }
    if body.metaDescription.Sent? {
      data := data.(metaDescription := Sent(MetaDescription(body.metaDescription.value)));
    }
    data := BuildLists(canon, body, data);
    data := BuildMedia(canon, body, data);
    if author.Some? {
      data := data.(authorId := Sent(Some(author.value.id)));
      data := data.(authorName := Sent(Some(author.value.name)));
    }
  }

  function Or<T>(field: Sent<T>, current: T): T {
    if field.Sent? then field.value else current
  }

  /** `setattr` for every key present; columns without a key keep their value. */
  function Merge(a: Article, data: Data): Article {
    a.(title := Or(data.title, a.title),
       description := Or(data.description, a.description),
       slug := Or(data.slug, a.slug),
       category := Or(data.category, a.category),
       htmlContent := Or(data.htmlContent, a.htmlContent),
       status := Or(data.status, a.status),
       publishedAt := Or(data.publishedAt, a.publishedAt),
       authorId := Or(data.authorId, a.authorId),
       authorName := Or(data.authorName, a.authorName),
       instagram := Or(data.instagram, a.instagram),
       youtube := Or(data.youtube, a.youtube),
       faq := Or(data.faq, a.faq),
       links := Or(data.links, a.links),
       coverImageUrl := Or(data.coverImageUrl, a.coverImageUrl),
       searchKeyword := Or(data.searchKeyword, a.searchKeyword),
       metaTitle := Or(data.metaTitle, a.metaTitle),
       metaDescription := Or(data.metaDescription, a.metaDescription))
  }

  /** `articles.update`: merge, and stamp `updated_at` when some column's net value moved. */
  function Updated(a: Article, data: Data, now: int): Article {
    var merged := Merge(a, data);
    if merged != a then merged.(updatedAt := now) else a
  }

  /** `articles.set_status`: the first publish stamps `published_at`. */
  function WithStatus(a: Article, status: Status, now: int): Article {
    var moved := a.(status := status,
                    publishedAt := if status == Published && a.publishedAt.None? then Some(now) else a.publishedAt);
    if moved != a then moved.(updatedAt := now) else a
  }

  /** A fresh row: column defaults, the merged data, the database clock in both timestamps. */
  function Created(id: int, data: Data, now: int): Article {
    Merge(Article(id, "Untitled", "", "", Blog, "", Draft, None, now, now, None, None,
                  [], [], [], [], None, [], None, None), data)
  }

  /** Everything but the modification stamp. */
  function Content(a: Article): Article {
    a.(updatedAt := 0)
  }

  /** A column whose key is absent from the request keeps its value. */
  lemma MergeIsPartial(canon: Canon, a: Article, body: Body, author: Option<Author>)
    ensures var b := Merge(a, DataFor(canon, body, author, None));
            && b.id == a.id && b.createdAt == a.createdAt && b.updatedAt == a.updatedAt
            && (body.title.Unset? ==> b.title == a.title)
            && (body.description.Unset? ==> b.description == a.description)
            && (body.slug.Unset? ==> b.slug == a.slug)
            && (body.category.Unset? ==> b.category == a.category)
            && (body.status.Unset? ==> b.status == a.status)
            && (body.publishedAt.Unset? ==> b.publishedAt == a.publishedAt)
            && (body.htmlContent.Unset? ==> b.htmlContent == a.htmlContent)
            && (body.metaTitle.Unset? ==> b.metaTitle == a.metaTitle)
            && (body.metaDescription.Unset? ==> b.metaDescription == a.metaDescription)
            && (body.searchKeyword.Unset? ==> b.searchKeyword == a.searchKeyword)
            && (body.links.Unset? ==> b.links == a.links)
            && (body.faq.Unset? ==> b.faq == a.faq)
            && (body.instagram.Unset? ==> b.instagram == a.instagram)
            && (body.youtube.Unset? ==> b.youtube == a.youtube)
            && (body.coverImageUrl.Unset? ==> b.coverImageUrl == a.coverImageUrl)
            && (author.None? ==> b.authorId == a.authorId && b.authorName == a.authorName)
  {
  }

  /** Merging the same data twice is merging it once. */
  lemma MergeTwice(a: Article, data: Data)
    ensures Merge(Merge(a, data), data) == Merge(a, data)
  {
  }

  /** Which column each key reaches, and what null and unknown values do: a null
      status or category and an empty slug change nothing, a null title becomes
      empty, an unknown category is filed under the blog, markdown beats HTML. */
  lemma MergeAppliesKeys(canon: Canon, a: Article, body: Body, author: Option<Author>, rendered: Option<string>)
    ensures var b := Merge(a, DataFor(canon, body, author, rendered));
            && (body.title == Sent(None) ==> b.title == "")
            && (forall s :: body.title == Sent(Some(s)) ==> b.title == Strip(s))
            && (forall s :: body.description == Sent(Some(s)) ==> b.description == Strip(s))
            && (forall s :: body.slug == Sent(Some(s)) && s != "" ==> b.slug == Lower(Strip(s)))
            && (body.slug == Sent(None) || body.slug == Sent(Some("")) ==> b.slug == a.slug)
            && (forall c :: body.category == Sent(Some(Known(c))) ==> b.category == c)
            && (body.category == Sent(Some(Unknown)) ==> b.category == Blog)
            && (body.category == Sent(None) ==> b.category == a.category)
            && (forall s :: body.status == Sent(Some(s)) ==> b.status == s)
            && (body.status == Sent(None) ==> b.status == a.status)
            && (forall at :: body.publishedAt == Sent(at) ==> b.publishedAt == at)
            && (forall html :: rendered == Some(html) ==> b.htmlContent == html)
            && (forall html :: rendered.None? && body.htmlContent == Sent(html) ==> b.htmlContent == html)
            && (forall w :: author == Some(w) ==> b.authorId == Some(w.id) && b.authorName == Some(w.name))
  {
    assert Strip("") == "" && Lower("") == "";
  }

  /** The normalised keys: each reaches its own column, a null empties it. */
  lemma MergeAppliesLists(canon: Canon, a: Article, body: Body, author: Option<Author>, rendered: Option<string>)
    requires canon("") == None
    ensures var b := Merge(a, DataFor(canon, body, author, rendered));
            && (forall v :: body.metaTitle == Sent(v) ==> b.metaTitle == MetaTitle(v))
            && (forall v :: body.metaDescription == Sent(v) ==> b.metaDescription == MetaDescription(v))
            && (forall v :: body.searchKeyword == Sent(v) ==> b.searchKeyword == SearchKeywords(v))
            && (forall v :: body.links == Sent(v) ==> b.links == LinkList(canon, v))
            && (forall v :: body.faq == Sent(v) ==> b.faq == FaqList(v))
            && (forall v :: body.instagram == Sent(v) ==> b.instagram == MediaList(canon, v))
            && (forall v :: body.youtube == Sent(v) ==> b.youtube == MediaList(canon, v))
            && (forall v :: body.coverImageUrl == Sent(v) ==> b.coverImageUrl == CoverUrl(canon, v))
            && (body.metaTitle == Sent(None) ==> b.metaTitle == None)
            && (body.metaDescription == Sent(None) ==> b.metaDescription == None)
            && (body.searchKeyword == Sent(OtherKeywords) ==> b.searchKeyword == [])
            && (body.links == Sent(None) ==> b.links == [])
            && (body.faq == Sent(None) ==> b.faq == [])
            && (body.instagram == Sent(None) ==> b.instagram == [])
            && (body.youtube == Sent(None) ==> b.youtube == [])
            && (body.coverImageUrl == Sent(None) ==> b.coverImageUrl == None)
  {
    assert Squeeze("") == "" && Strip("") == "";
  }

  /** `updated_at` moves exactly when another column does, whatever the clock says. */
  lemma StampIffMoved(a: Article, data: Data, now: int)
    ensures Content(Updated(a, data, now)) == Content(Merge(a, data))
    ensures Updated(a, data, now).updatedAt ==
            if Content(Updated(a, data, now)) != Content(a) then now else a.updatedAt
  {
    var merged := Merge(a, data);
    assert merged.updatedAt == a.updatedAt;
    if Content(merged) == Content(a) {
      assert merged == Content(merged).(updatedAt := a.updatedAt) == a;
    }
  }

  lemma StatusStampIffMoved(a: Article, status: Status, now: int)
    ensures var b := WithStatus(a, status, now);
            && b.status == status
            && b.updatedAt == (if Content(b) != Content(a) then now else a.updatedAt)
            && (Content(b) == Content(a) <==> a.status == status && !(status == Published && a.publishedAt.None?))
            && b.publishedAt == (if status == Published && a.publishedAt.None? then Some(now) else a.publishedAt)
  {
    var b := WithStatus(a, status, now);
    if Content(b) == Content(a) {
      assert b == Content(b).(updatedAt := b.updatedAt);
      assert a == Content(a).(updatedAt := a.updatedAt);
    }
  }
}
