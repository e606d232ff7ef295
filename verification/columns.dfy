/** What each request leaves in each column of the row it writes. */
module Columns {
  import opened Outcomes
  import opened Text
  import opened Articles
  import opened Payload
  import opened Writes
  import opened Posts

  /** Each key sent reaches its own column with its normalised value; a column whose key
      is not sent stays as it was before. */
  predicate FieldsReach(canon: Canon, body: Body, author: Author, before: Article, after: Article) {
    && after.title == (match body.title
                       case Unset => before.title case Sent(None) => "" case Sent(Some(s)) => Strip(s))
    && after.description == (match body.description
                             case Unset => before.description case Sent(None) => "" case Sent(Some(s)) => Strip(s))
    && after.category == (match body.category
                          case Sent(Some(Known(c))) => c case Sent(Some(Unknown)) => Blog case _ => before.category)
    && after.metaTitle == (match body.metaTitle case Unset => before.metaTitle case Sent(v) => MetaTitle(v))
    && after.metaDescription == (match body.metaDescription
                                 case Unset => before.metaDescription case Sent(v) => MetaDescription(v))
    && after.searchKeyword == (match body.searchKeyword
                               case Unset => before.searchKeyword case Sent(v) => SearchKeywords(v))
    && after.links == (match body.links case Unset => before.links case Sent(v) => LinkList(canon, v))
    && after.faq == (match body.faq case Unset => before.faq case Sent(v) => FaqList(v))
    && after.instagram == (match body.instagram case Unset => before.instagram case Sent(v) => MediaList(canon, v))
    && after.youtube == (match body.youtube case Unset => before.youtube case Sent(v) => MediaList(canon, v))
    && after.coverImageUrl == (match body.coverImageUrl
                               case Unset => before.coverImageUrl case Sent(v) => CoverUrl(canon, v))
    && after.authorId == Some(author.id) && after.authorName == Some(author.name)
  }

  /** The request says that the article is to be published, and gives no date. */
  predicate PublishesUndated(body: Body) {
    body.status == Sent(Some(Published)) && (body.publishedAt.Unset? || body.publishedAt == Sent(None))
  }

  lemma MergeReaches(canon: Canon, body: Body, author: Author, rendered: Option<string>, before: Article)
    ensures FieldsReach(canon, body, author, before, Merge(before, DataFor(canon, body, Some(author), rendered)))
  {
  }

  /** The other columns, and the defaults of the mapping, as the merge leaves them. */
  lemma MergeWorkflow(canon: Canon, body: Body, author: Author, rendered: Option<string>, before: Article)
    ensures var a := Merge(before, DataFor(canon, body, Some(author), rendered));
            && a.id == before.id && a.createdAt == before.createdAt && a.updatedAt == before.updatedAt
            && a.status == (match body.status case Sent(Some(s)) => s case _ => before.status)
            && a.publishedAt == (match body.publishedAt case Unset => before.publishedAt case Sent(at) => at)
            && a.htmlContent == (match rendered
                                 case Some(html) => html
                                 case None => match body.htmlContent
                                              case Unset => before.htmlContent case Sent(html) => html)
  {
  }

  lemma MergeSlug(canon: Canon, body: Body, author: Author, rendered: Option<string>, before: Article)
    requires SlugOptional(body)
    ensures Merge(before, DataFor(canon, body, Some(author), rendered)).slug
            == match body.slug case Sent(Some(s)) => s case _ => before.slug
  {
    if body.slug.Sent? && body.slug.value.Some? {
      ValidSlugIsNormal(body.slug.value.value);
    }
  }

  lemma ReachIgnoresDate(canon: Canon, body: Body, author: Author, before: Article, a: Article, b: Article)
    requires FieldsReach(canon, body, author, before, a)
    requires b == a.(status := b.status, publishedAt := b.publishedAt, updatedAt := b.updatedAt)
    ensures FieldsReach(canon, body, author, before, b)
  {
  }

  /** A row with the column defaults of the mapping. */
  function DefaultRow(id: int, now: int): (a: Article)
    ensures a.title == "Untitled" && a.description == "" && a.category == Blog && a.status == Draft
    ensures a.publishedAt == None && a.htmlContent == "" && a.metaTitle == None && a.metaDescription == None
    ensures a.searchKeyword == [] && a.links == [] && a.faq == [] && a.instagram == [] && a.youtube == []
    ensures a.coverImageUrl == None && a.id == id && a.createdAt == now && a.updatedAt == now
  {
    Created(id, NO_DATA, now)
  }

  lemma CreatedIsMerge(id: int, data: Data, now: int)
    ensures Created(id, data, now) == Merge(DefaultRow(id, now), data)
  {
  }

  lemma PlannedCreate(canon: Canon, t: Table, e: Event)
    requires e.CreatePost? && Plan(canon, t, e).Insert?
    ensures var data := DataFor(canon, e.body, Some(e.author), None);
            var (a, m) := (Plan(canon, t, e).article, Merge(DefaultRow(t.nextId, e.now), data));
            && SlugRequired(e.body)
            && a == m.(publishedAt := if PublishesUndated(e.body) then Some(e.routeNow) else m.publishedAt)
  {
    CreatedIsMerge(t.nextId, DateFirstPublish(DataFor(canon, e.body, Some(e.author), None), None, e.routeNow), e.now);
  }

  /** The row a create request writes: the column defaults of the mapping, overwritten by
      what was sent; the checked slug; the status sent, else a draft; the date sent, or the
      handler's clock for an undated publish; both timestamps in the statement's time. */
  lemma CreatedColumns(canon: Canon, t: Table, e: Event)
    requires e.CreatePost? && Plan(canon, t, e).Insert?
    ensures var (a, body) := (Plan(canon, t, e).article, e.body);
            && FieldsReach(canon, body, e.author, DefaultRow(t.nextId, e.now), a)
            && a.id == t.nextId && a.createdAt == e.now && a.updatedAt == e.now
            && body.slug == Sent(Some(a.slug))
            && a.status == (match body.status case Sent(Some(s)) => s case _ => Draft)
            && a.publishedAt == (if PublishesUndated(body) then Some(e.routeNow)
                                 else match body.publishedAt case Unset => None case Sent(at) => at)
            && a.htmlContent == (match body.htmlContent case Unset => "" case Sent(html) => html)
  {
    var row := DefaultRow(t.nextId, e.now);
    PlannedCreate(canon, t, e);
    MergeReaches(canon, e.body, e.author, None, row);
    MergeWorkflow(canon, e.body, e.author, None, row);
    MergeSlug(canon, e.body, e.author, None, row);
    ReachIgnoresDate(canon, e.body, e.author, row, Merge(row, DataFor(canon, e.body, Some(e.author), None)),
                     Plan(canon, t, e).article);
  }

  lemma PlannedIngest(canon: Canon, t: Table, e: Event)
    requires e.PublishPost? && Plan(canon, t, e).Insert?
    ensures var data := DataFor(canon, e.body, Some(e.author), Some(e.rendered));
            && SlugRequired(e.body)
            && Plan(canon, t, e).article == Merge(DefaultRow(t.nextId, e.now), data).(status := Draft)
  {
    CreatedIsMerge(t.nextId, DataFor(canon, e.body, Some(e.author), Some(e.rendered)).(status := Sent(Draft)), e.now);
  }

  /** The row an ingest writes: the same, as a draft with the rendered body. */
  lemma IngestedColumns(canon: Canon, t: Table, e: Event)
    requires e.PublishPost? && Plan(canon, t, e).Insert?
    ensures var (a, body) := (Plan(canon, t, e).article, e.body);
            && FieldsReach(canon, body, e.author, DefaultRow(t.nextId, e.now), a)
            && a.id == t.nextId && a.createdAt == e.now && a.updatedAt == e.now
            && body.slug == Sent(Some(a.slug)) && a.status == Draft && a.htmlContent == e.rendered
            && a.publishedAt == (match body.publishedAt case Unset => None case Sent(at) => at)
  {
    var row := DefaultRow(t.nextId, e.now);
    PlannedIngest(canon, t, e);
    MergeReaches(canon, e.body, e.author, Some(e.rendered), row);
    MergeWorkflow(canon, e.body, e.author, Some(e.rendered), row);
    MergeSlug(canon, e.body, e.author, Some(e.rendered), row);
    ReachIgnoresDate(canon, e.body, e.author, row, Merge(row, DataFor(canon, e.body, Some(e.author), Some(e.rendered))),
                     Plan(canon, t, e).article);
  }

  lemma PlannedEdit(canon: Canon, t: Table, e: Event)
    requires e.UpdatePost? && Plan(canon, t, e).Replace?
    ensures Plan(canon, t, e).index < |t.rows| && t.rows[Plan(canon, t, e).index].slug == e.slug
    ensures var (was, a) := (t.rows[Plan(canon, t, e).index], Plan(canon, t, e).article);
            var m := Merge(was, DataFor(canon, e.body, Some(e.author), None));
            && SlugOptional(e.body)
            && a == m.(publishedAt := if PublishesUndated(e.body) && was.publishedAt.None? then Some(e.routeNow)
                                      else m.publishedAt,
                       updatedAt := a.updatedAt)
  {
  }

  /** The row an edit writes: the row it names, overwritten by what was sent; an undated
      publish of an undated row takes the handler's clock; the stamp moves exactly when
      something else did. */
  lemma EditedColumns(canon: Canon, t: Table, e: Event)
    requires e.UpdatePost? && Plan(canon, t, e).Replace?
    ensures Plan(canon, t, e).index < |t.rows|
    ensures var (was, a, body) := (t.rows[Plan(canon, t, e).index], Plan(canon, t, e).article, e.body);
            && was.slug == e.slug && FieldsReach(canon, body, e.author, was, a)
            && a.id == was.id && a.createdAt == was.createdAt
            && a.slug == (match body.slug case Sent(Some(s)) => s case _ => was.slug)
            && a.status == (match body.status case Sent(Some(s)) => s case _ => was.status)
            && a.publishedAt == (if PublishesUndated(body) && was.publishedAt.None? then Some(e.routeNow)
                                 else match body.publishedAt case Unset => was.publishedAt case Sent(at) => at)
            && a.htmlContent == (match body.htmlContent case Unset => was.htmlContent case Sent(html) => html)
            && a.updatedAt == (if a.(updatedAt := was.updatedAt) == was then was.updatedAt else e.now)
  {
    PlannedEdit(canon, t, e);
    var was := t.rows[Plan(canon, t, e).index];
    MergeReaches(canon, e.body, e.author, None, was);
    MergeWorkflow(canon, e.body, e.author, None, was);
    MergeSlug(canon, e.body, e.author, None, was);
    ReachIgnoresDate(canon, e.body, e.author, was, Merge(was, DataFor(canon, e.body, Some(e.author), None)),
                     Plan(canon, t, e).article);
    EditStamp(canon, t, e);
  }

  lemma EditStamp(canon: Canon, t: Table, e: Event)
    requires e.UpdatePost? && Plan(canon, t, e).Replace?
    ensures Plan(canon, t, e).index < |t.rows|
    ensures var (was, a) := (t.rows[Plan(canon, t, e).index], Plan(canon, t, e).article);
            a.updatedAt == if a.(updatedAt := was.updatedAt) == was then was.updatedAt else e.now
  {
    ReplacedStamped(canon, t, e);
    ContentTells(t.rows[Plan(canon, t, e).index], Plan(canon, t, e).article);
  }

  lemma ContentTells(was: Article, a: Article)
    ensures Content(a) == Content(was) <==> a.(updatedAt := was.updatedAt) == was
  {
    if Content(a) == Content(was) {
      assert a.(updatedAt := was.updatedAt) == Content(a).(updatedAt := was.updatedAt);
      assert was == Content(was).(updatedAt := was.updatedAt);
    }
  }

  /** The row a status change writes: the new status, a date on a first publish, the stamp
      if either moved, and every other column as it was. */
  lemma StatusColumns(canon: Canon, t: Table, e: Event)
    requires e.ChangeStatus? && Plan(canon, t, e).Replace?
    ensures Plan(canon, t, e).index < |t.rows|
    ensures var (was, a) := (t.rows[Plan(canon, t, e).index], Plan(canon, t, e).article);
            && was.slug == e.slug
            && a == (if e.status == was.status && (e.status != Published || was.publishedAt.Some?) then was
                     else was.(status := e.status, updatedAt := e.now,
                               publishedAt := if e.status == Published && was.publishedAt.None? then Some(e.now)
                                              else was.publishedAt))
  {
  }
}
