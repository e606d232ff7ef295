/** The article state machine behind the admin and publishing routes: each request
    is one atomic step over the article table. */
module Posts {
  import opened Outcomes
  import opened Text
  import opened Articles
  import opened Payload
  import opened Writes

  const SLUG_MAX := 200

  datatype Error = NotFound | Conflict | Unprocessable

  /** A request together with the clock readings taken while serving it: `routeNow`
      by the handler, `now` by the statement that stamps the row. */
  datatype Event =
    | CreatePost(body: Body, author: Author, routeNow: int, now: int)
    | UpdatePost(slug: string, body: Body, author: Author, routeNow: int, now: int)
    | ChangeStatus(slug: string, status: Status, now: int)
    | PublishPost(body: Body, rendered: string, author: Author, now: int)
    | DeletePost(slug: string, now: int)

  datatype Table = Table(rows: seq<Article>, nextId: int)

  /** What a request does to the table. */
  datatype Effect =
    | Refuse(error: Error)
    | Insert(article: Article)
    | Replace(index: nat, article: Article)
    | Remove(index: nat)

  // ---- Request validation and lookups --------------------------------------------

  predicate SlugChar(c: char) {
    'a' <= c <= 'z' || '0' <= c <= '9' || c == '-'
  }

  predicate ValidSlug(slug: string) {
    1 <= |slug| <= SLUG_MAX && forall i :: 0 <= i < |slug| ==> SlugChar(slug[i])
  }

  /** A body whose required slug is present and well formed. */
  predicate SlugRequired(body: Body) {
    body.slug.Sent? && body.slug.value.Some? && ValidSlug(body.slug.value.value)
  }

  predicate SlugOptional(body: Body) {
    body.slug.Sent? && body.slug.value.Some? ==> ValidSlug(body.slug.value.value)
  }

  /** The publishing body has neither an HTML nor a status field. */
  predicate PublishBody(body: Body) {
    SlugRequired(body) && body.htmlContent.Unset? && body.status.Unset?
  }

  function FindSlug(rows: seq<Article>, slug: string): (found: Option<nat>)
    ensures found.Some? ==> found.value < |rows| && rows[found.value].slug == slug
    ensures found.None? ==> forall i :: 0 <= i < |rows| ==> rows[i].slug != slug
  {
    if rows == [] then None
    else if rows[|rows| - 1].slug == slug then Some(|rows| - 1)
    else FindSlug(rows[..|rows| - 1], slug)
  }

  /** `slug_exists`: does a row other than `exceptId` hold the slug? */
  predicate SlugTaken(rows: seq<Article>, slug: string, exceptId: Option<int>): (taken: bool)
    ensures taken <==> exists i :: 0 <= i < |rows| && rows[i].slug == slug && exceptId != Some(rows[i].id)
  {
    if rows == [] then false
    else
      var last := rows[|rows| - 1];
      (last.slug == slug && exceptId != Some(last.id)) || SlugTaken(rows[..|rows| - 1], slug, exceptId)
  }

  // ---- The steps -------------------------------------------------------------------

  /** A first publish without a date is dated by the handler. */
  function DateFirstPublish(data: Data, current: Option<int>, routeNow: int): Data {
    if data.status == Sent(Published) && current.None? && (data.publishedAt.Unset? || data.publishedAt.value.None?) then
      data.(publishedAt := Sent(Some(routeNow)))
    else data
  }

  function EditedRow(canon: Canon, a: Article, body: Body, author: Author, routeNow: int, now: int): Article {
    Updated(a, DateFirstPublish(DataFor(canon, body, Some(author), None), a.publishedAt, routeNow), now)
  }

  function Plan(canon: Canon, t: Table, e: Event): Effect {
    match e
    case CreatePost(body, author, routeNow, now) =>
      if !SlugRequired(body) then Refuse(Unprocessable)
      else if SlugTaken(t.rows, body.slug.value.value, None) then Refuse(Conflict)
      else Insert(Created(t.nextId, DateFirstPublish(DataFor(canon, body, Some(author), None), None, routeNow), now))
    case UpdatePost(slug, body, author, routeNow, now) =>
      if !SlugOptional(body) then Refuse(Unprocessable)
      else (match FindSlug(t.rows, slug)
        case None => Refuse(NotFound)
        case Some(i) =>
          if body.slug.Sent? && OrEmpty(body.slug.value) != "" &&
             SlugTaken(t.rows, OrEmpty(body.slug.value), Some(t.rows[i].id)) then Refuse(Conflict)
          else Replace(i, EditedRow(canon, t.rows[i], body, author, routeNow, now)))
    case ChangeStatus(slug, status, now) =>
      (match FindSlug(t.rows, slug)
       case None => Refuse(NotFound)
       case Some(i) => Replace(i, WithStatus(t.rows[i], status, now)))
    case PublishPost(body, rendered, author, now) =>
      if !PublishBody(body) then Refuse(Unprocessable)
      else if SlugTaken(t.rows, body.slug.value.value, None) then Refuse(Conflict)
      else Insert(Created(t.nextId, DataFor(canon, body, Some(author), Some(rendered)).(status := Sent(Draft)), now))
    case DeletePost(slug, _) =>
      (match FindSlug(t.rows, slug)
       case None => Refuse(NotFound)
       case Some(i) => Remove(i))
  }

  function Apply(t: Table, effect: Effect): Table {
    match effect
    case Refuse(_) => t
    case Insert(a) => Table(t.rows + [a], t.nextId + 1)
    case Replace(i, a) => if i < |t.rows| then t.(rows := t.rows[i := a]) else t
    case Remove(i) => if i < |t.rows| then t.(rows := t.rows[..i] + t.rows[i + 1..]) else t
  }

  function Step(canon: Canon, t: Table, e: Event): Table {
    Apply(t, Plan(canon, t, e))
  }

  function Run(canon: Canon, t: Table, events: seq<Event>): Table {
    if events == [] then t
    else Step(canon, Run(canon, t, events[..|events| - 1]), events[|events| - 1])
  }

  // ---- The store, updated in place ---------------------------------------------------

  class ArticleStore {
    var rows: seq<Article>
    var nextId: int

    ghost function Value(): Table
      reads this
    {
      Table(rows, nextId)
    }

    constructor ()
      ensures Value() == Table([], 1)
    {
      rows := [];
      nextId := 1;
    }

    /** INSERT: the database assigns the id and both timestamps. */
    method Create(data: Data, now: int) returns (article: Article)
      modifies this
      ensures article == Created(old(nextId), data, now)
      ensures Value() == Apply(old(Value()), Insert(article))
    {
      article := Created(nextId, data, now);
      rows := rows + [article];
      nextId := nextId + 1;
    }

    method Update(i: nat, data: Data, now: int) returns (article: Article)
      requires i < |rows|
      modifies this`rows
      ensures article == Updated(old(rows)[i], data, now)
      ensures Value() == Apply(old(Value()), Replace(i, article))
    {
      var loaded := rows[i];
      article := Merge(loaded, data);
      if article != loaded {
        article := article.(updatedAt := now);
      }
      rows := rows[i := article];
    }

    method SetStatus(i: nat, status: Status, now: int) returns (article: Article)
      requires i < |rows|
      modifies this`rows
      ensures article == WithStatus(old(rows)[i], status, now)
      ensures Value() == Apply(old(Value()), Replace(i, article))
    {
      var loaded := rows[i];
      article := loaded.(status := status);
      if status == Published && article.publishedAt.None? {
        article := article.(publishedAt := Some(now));
      }
      if article != loaded {
        article := article.(updatedAt := now);
      }
      rows := rows[i := article];
    }

    method CreatePost(canon: Canon, body: Body, author: Author, routeNow: int, now: int)
      returns (r: Result<Article, Error>)
      modifies this
      ensures var e := Event.CreatePost(body, author, routeNow, now);
              Value() == Step(canon, old(Value()), e) && Answers(r, Plan(canon, old(Value()), e))
    {
      if !SlugRequired(body) {
        return Err(Unprocessable);
      }
      if SlugTaken(rows, body.slug.value.value, None) {
        return Err(Conflict);
      }
      var data := BuildArticleData(canon, body, Some(author), None);
      if data.status == Sent(Published) && (data.publishedAt.Unset? || data.publishedAt.value.None?) {
        data := data.(publishedAt := Sent(Some(routeNow)));
      }
      var article := Create(data, now);
      r := Ok(article);
    }

    method UpdatePost(canon: Canon, slug: string, body: Body, author: Author, routeNow: int, now: int)
      returns (r: Result<Article, Error>)
      modifies this
      ensures var e := Event.UpdatePost(slug, body, author, routeNow, now);
              Value() == Step(canon, old(Value()), e) && Answers(r, Plan(canon, old(Value()), e))
    {
      if !SlugOptional(body) {
        return Err(Unprocessable);
      }
      var found := FindSlug(rows, slug);
      if found.None? {
        return Err(NotFound);
      }
      var current := rows[found.value];
      if body.slug.Sent? && OrEmpty(body.slug.value) != "" {
        if SlugTaken(rows, OrEmpty(body.slug.value), Some(current.id)) {
          return Err(Conflict);
        }
      }
      var data := BuildArticleData(canon, body, Some(author), None);
      if data.status == Sent(Published) && current.publishedAt.None? &&
         (data.publishedAt.Unset? || data.publishedAt.value.None?) {
        data := data.(publishedAt := Sent(Some(routeNow)));
      }
      var article := Update(found.value, data, now);
      r := Ok(article);
    }

    method UpdatePostStatus(canon: Canon, slug: string, status: Status, now: int) returns (r: Result<Article, Error>)
      modifies this
      ensures var e := ChangeStatus(slug, status, now);
              Value() == Step(canon, old(Value()), e) && Answers(r, Plan(canon, old(Value()), e))
    {
      var found := FindSlug(rows, slug);
      if found.None? {
        return Err(NotFound);
      }
      var article := SetStatus(found.value, status, now);
      r := Ok(article);
    }

    method PublishArticle(canon: Canon, body: Body, rendered: string, author: Author, now: int)
      returns (r: Result<Article, Error>)
      modifies this
      ensures var e := PublishPost(body, rendered, author, now);
              Value() == Step(canon, old(Value()), e) && Answers(r, Plan(canon, old(Value()), e))
    {
      if !PublishBody(body) {
        return Err(Unprocessable);
      }
      if |body.slug.value.value| > SLUG_MAX || SlugTaken(rows, body.slug.value.value, None) {
        return Err(Conflict);
      }
      var data := BuildArticleData(canon, body, Some(author), Some(rendered));
      data := data.(status := Sent(Draft));
      var article := Create(data, now);
      r := Ok(article);
    }

    method DeletePost(canon: Canon, slug: string, now: int) returns (r: Result<(), Error>)
      modifies this
      ensures Value() == Step(canon, old(Value()), Event.DeletePost(slug, now))
      ensures r.Ok? <==> FindSlug(old(rows), slug).Some?
    {
      var found := FindSlug(rows, slug);
      if found.None? {
        return Err(NotFound);
      }
      var i := found.value;
      rows := rows[..i] + rows[i + 1..];
      r := Ok(());
    }
  }

  /** The response matches the effect. */
  predicate Answers(r: Result<Article, Error>, effect: Effect) {
    match effect
    case Refuse(error) => r == Err(error)
    case Insert(a) => r == Ok(a)
    case Replace(_, a) => r == Ok(a)
    case Remove(_) => false
  }

  // ---- Invariants of every run -----------------------------------------------------

  ghost predicate WellFormed(t: Table) {
    && DistinctIds(t.rows) && DistinctSlugs(t.rows)
    && forall i :: 0 <= i < |t.rows| ==> t.rows[i].id < t.nextId
  }

  /** The pattern leaves nothing for the normaliser to change, so the slug that was
      checked for uniqueness is the slug that is stored. */
  lemma ValidSlugIsNormal(slug: string)
    requires ValidSlug(slug)
    ensures Lower(Strip(slug)) == slug
  {
    assert SlugChar(slug[0]) && SlugChar(slug[|slug| - 1]);
    StripFixes(slug);
    forall i | 0 <= i < |slug|
      ensures !('A' <= slug[i] <= 'Z')
    {
      assert SlugChar(slug[i]);
    }
    LowerFixes(slug);
  }

  /** What an effect may put into the table. */
  ghost predicate Admissible(t: Table, effect: Effect) {
    match effect
    case Refuse(_) => true
    case Insert(a) => a.id == t.nextId && forall i :: 0 <= i < |t.rows| ==> t.rows[i].slug != a.slug
    case Replace(i, a) =>
      i < |t.rows| && a.id == t.rows[i].id && forall j :: 0 <= j < |t.rows| && j != i ==> t.rows[j].slug != a.slug
    case Remove(i) => i < |t.rows|
  }

  lemma EditAdmissible(canon: Canon, t: Table, e: Event)
    requires WellFormed(t) && e.UpdatePost?
    ensures Admissible(t, Plan(canon, t, e))
  {
    if e.body.slug.Sent? && e.body.slug.value.Some? && ValidSlug(e.body.slug.value.value) {
      ValidSlugIsNormal(e.body.slug.value.value);
    }
  }

  lemma PlanAdmissible(canon: Canon, t: Table, e: Event)
    requires WellFormed(t)
    ensures Admissible(t, Plan(canon, t, e))
  {
    match e
    case CreatePost(body, author, routeNow, now) =>
      if SlugRequired(body) {
        ValidSlugIsNormal(body.slug.value.value);
      }
    case UpdatePost(slug, body, author, routeNow, now) => EditAdmissible(canon, t, e);
    case ChangeStatus(slug, status, now) =>
    case PublishPost(body, rendered, author, now) =>
      if SlugRequired(body) {
        ValidSlugIsNormal(body.slug.value.value);
      }
    case DeletePost(slug, _) =>
  }

  lemma ApplyKeepsWellFormed(t: Table, effect: Effect)
    requires WellFormed(t) && Admissible(t, effect)
    ensures WellFormed(Apply(t, effect))
  {
  }

  /** Ids and slugs stay distinct in every run. */
  lemma {:induction false} RunKeepsWellFormed(canon: Canon, t: Table, events: seq<Event>)
    requires WellFormed(t)
    ensures WellFormed(Run(canon, t, events))
  {
    if events != [] {
      var n := |events| - 1;
      RunKeepsWellFormed(canon, t, events[..n]);
      var before := Run(canon, t, events[..n]);
      PlanAdmissible(canon, before, events[n]);
      ApplyKeepsWellFormed(before, Plan(canon, before, events[n]));
    }
  }

  predicate HoldsSlug(rows: seq<Article>, slug: string) {
    exists i :: 0 <= i < |rows| && rows[i].slug == slug
  }

  /** Exactly when each request is refused, and why. */
  lemma RefusedIff(canon: Canon, t: Table, e: Event)
    requires WellFormed(t)
    ensures var effect := Plan(canon, t, e);
            match e {
              case CreatePost(body, _, _, _) =>
                && (effect == Refuse(Unprocessable) <==> forall s :: body.slug == Sent(Some(s)) ==> !ValidSlug(s))
                && (effect == Refuse(Conflict) <==>
                      exists s :: body.slug == Sent(Some(s)) && ValidSlug(s) && HoldsSlug(t.rows, s))
                && (effect.Refuse? || effect.Insert?)
              case UpdatePost(slug, body, _, _, _) =>
                && (effect == Refuse(Unprocessable) <==> exists s :: body.slug == Sent(Some(s)) && !ValidSlug(s))
                && (effect == Refuse(NotFound) <==>
                      (forall s :: body.slug == Sent(Some(s)) ==> ValidSlug(s)) && !HoldsSlug(t.rows, slug))
                && (effect == Refuse(Conflict) <==>
                      && HoldsSlug(t.rows, slug)
                      && exists s :: body.slug == Sent(Some(s)) && ValidSlug(s) && s != slug && HoldsSlug(t.rows, s))
                && (effect.Refuse? || (effect.Replace? && effect.index < |t.rows| && t.rows[effect.index].slug == slug))
              case ChangeStatus(slug, _, _) =>
                && (effect == Refuse(NotFound) <==> !HoldsSlug(t.rows, slug))
                && (effect == Refuse(NotFound)
                    || (effect.Replace? && effect.index < |t.rows| && t.rows[effect.index].slug == slug))
              case PublishPost(body, _, _, _) =>
                && (effect == Refuse(Unprocessable) <==>
                      || body.htmlContent.Sent? || body.status.Sent?
                      || forall s :: body.slug == Sent(Some(s)) ==> !ValidSlug(s))
                && (effect == Refuse(Conflict) <==>
                      && body.htmlContent.Unset? && body.status.Unset?
                      && exists s :: body.slug == Sent(Some(s)) && ValidSlug(s) && HoldsSlug(t.rows, s))
                && (effect.Refuse? || effect.Insert?)
              case DeletePost(slug, _) =>
                && (effect == Refuse(NotFound) <==> !HoldsSlug(t.rows, slug))
                && (effect == Refuse(NotFound)
                    || (effect.Remove? && effect.index < |t.rows| && t.rows[effect.index].slug == slug))
            }
  {
    assert e.CreatePost? && SlugRequired(e.body) ==> e.body.slug == Sent(Some(e.body.slug.value.value));
    assert e.UpdatePost? && !SlugOptional(e.body) ==> e.body.slug == Sent(Some(e.body.slug.value.value));
    assert e.PublishPost? && SlugRequired(e.body) ==> e.body.slug == Sent(Some(e.body.slug.value.value));
  }

  /** The slug pattern: 1 to 200 characters, each a lower-case letter, a digit or a dash. */
  lemma SlugPattern(s: string)
    ensures ValidSlug(s) <==>
            1 <= |s| <= 200 && forall c :: c in s ==> 'a' <= c <= 'z' || '0' <= c <= '9' || c == '-'
  {
    if 1 <= |s| <= 200 && forall c :: c in s ==> 'a' <= c <= 'z' || '0' <= c <= '9' || c == '-' {
      assert forall i :: 0 <= i < |s| ==> s[i] in s;
    }
  }

  // ---- Rows by id --------------------------------------------------------------------

  function FindId(rows: seq<Article>, id: int): (found: Option<Article>)
    ensures found.Some? ==> found.value in rows && found.value.id == id
    ensures found.None? ==> forall i :: 0 <= i < |rows| ==> rows[i].id != id
  {
    if rows == [] then None
    else if rows[|rows| - 1].id == id then Some(rows[|rows| - 1])
    else FindId(rows[..|rows| - 1], id)
  }

  lemma FindIdUnique(rows: seq<Article>, i: nat)
    requires DistinctIds(rows) && i < |rows|
    ensures FindId(rows, rows[i].id) == Some(rows[i])
  {
  }

  /** How an effect moves the row with a given id. */
  function RowEffect(t: Table, effect: Effect, id: int): Option<Article> {
    match effect
    case Refuse(_) => FindId(t.rows, id)
    case Insert(a) => if a.id == id then Some(a) else FindId(t.rows, id)
    case Replace(i, a) => if a.id == id then Some(a) else FindId(t.rows, id)
    case Remove(i) => if i < |t.rows| && t.rows[i].id == id then None else FindId(t.rows, id)
  }

  lemma ReplaceMovesRow(rows: seq<Article>, i: nat, b: Article, id: int)
    requires DistinctIds(rows) && i < |rows| && b.id == rows[i].id
    ensures FindId(rows[i := b], id) == if b.id == id then Some(b) else FindId(rows, id)
  {
    var after := rows[i := b];
    var found := FindId(rows, id);
    if b.id == id {
      FindIdUnique(after, i);
    } else if found.Some? {
      var j :| 0 <= j < |rows| && rows[j] == found.value;
      assert after[j] == rows[j];
      FindIdUnique(after, j);
    }
  }

  /** Where the rows go when row `i` is taken out. */
  function Shifted(k: nat, i: nat): nat {
    if k < i then k else k + 1
  }

  lemma RemovedRows(rows: seq<Article>, i: nat)
    requires i < |rows|
    ensures var after := rows[..i] + rows[i + 1..];
            |after| == |rows| - 1 && forall k: nat :: k < |after| ==> after[k] == rows[Shifted(k, i)]
  {
  }

  lemma RemovedDistinct(rows: seq<Article>, i: nat)
    requires DistinctIds(rows) && i < |rows|
    ensures DistinctIds(rows[..i] + rows[i + 1..])
  {
    RemovedRows(rows, i);
  }

  lemma RemovedAbsent(rows: seq<Article>, i: nat)
    requires DistinctIds(rows) && i < |rows|
    ensures forall a :: a in rows[..i] + rows[i + 1..] ==> a.id != rows[i].id && a in rows
  {
    RemovedRows(rows, i);
  }

  lemma RemovedPresent(rows: seq<Article>, i: nat, a: Article)
    requires i < |rows| && a in rows && a != rows[i]
    ensures a in rows[..i] + rows[i + 1..]
  {
    assert rows == rows[..i] + [rows[i]] + rows[i + 1..];
  }

  lemma FindIdIn(rows: seq<Article>, a: Article)
    requires DistinctIds(rows) && a in rows
    ensures FindId(rows, a.id) == Some(a)
  {
    var i :| 0 <= i < |rows| && rows[i] == a;
    FindIdUnique(rows, i);
  }

  lemma RemoveMovesRow(rows: seq<Article>, i: nat, id: int)
    requires DistinctIds(rows) && i < |rows|
    ensures FindId(rows[..i] + rows[i + 1..], id) == if rows[i].id == id then None else FindId(rows, id)
  {
    RemovedDistinct(rows, i);
    RemovedAbsent(rows, i);
    var after, found := rows[..i] + rows[i + 1..], FindId(rows, id);
    if rows[i].id != id && found.Some? {
      RemovedPresent(rows, i, found.value);
      FindIdIn(after, found.value);
    }
  }

  lemma InsertMovesRow(rows: seq<Article>, b: Article, id: int)
    ensures FindId(rows + [b], id) == if b.id == id then Some(b) else FindId(rows, id)
  {
    assert (rows + [b])[..|rows|] == rows;
  }

  lemma ApplyMovesRow(t: Table, effect: Effect, id: int)
    requires WellFormed(t) && Admissible(t, effect)
    ensures FindId(Apply(t, effect).rows, id) == RowEffect(t, effect, id)
  {
    var rows := t.rows;
    if effect.Insert? {
      InsertMovesRow(rows, effect.article, id);
    } else if effect.Replace? {
      ReplaceMovesRow(rows, effect.index, effect.article, id);
    } else if effect.Remove? {
      RemoveMovesRow(rows, effect.index, id);
    }
  }

  // ---- updated_at over a run -----------------------------------------------------------

  /** `after` carries the stamp `now` if some other column moved, else the stamp of `before`. */
  predicate Stamped(before: Article, after: Article, now: int) {
    && after.createdAt == before.createdAt
    && after.updatedAt == if Content(after) != Content(before) then now else before.updatedAt
  }

  lemma ReplacedStamped(canon: Canon, t: Table, e: Event)
    requires Plan(canon, t, e).Replace?
    ensures var effect := Plan(canon, t, e);
            effect.index < |t.rows| && Stamped(t.rows[effect.index], effect.article, e.now)
  {
    var a := t.rows[Plan(canon, t, e).index];
    if e.UpdatePost? {
      var data := DataFor(canon, e.body, Some(e.author), None);
      StampIffMoved(a, DateFirstPublish(data, a.publishedAt, e.routeNow), e.now);
    } else {
      StatusStampIffMoved(a, e.status, e.now);
    }
  }

  /** One step stamps a row with its own time when it creates the row or moves a
      column other than the stamp, and otherwise leaves the stamp alone. */
  lemma StepStamps(canon: Canon, t: Table, e: Event, id: int)
    requires WellFormed(t)
    ensures var before, after := FindId(t.rows, id), FindId(Step(canon, t, e).rows, id);
            after.Some? ==>
              if before.None? then after.value.updatedAt == after.value.createdAt == e.now
              else Stamped(before.value, after.value, e.now)
  {
    PlanAdmissible(canon, t, e);
    var effect := Plan(canon, t, e);
    EffectStamped(canon, t, e);
    RowStamped(t, effect, e.now, id);
  }

  /** What a request may write: a fresh row in its own time, or a stamped edit. */
  ghost predicate Stamps(t: Table, effect: Effect, now: int) {
    match effect
    case Insert(a) => a.updatedAt == a.createdAt == now
    case Replace(i, a) => i < |t.rows| && Stamped(t.rows[i], a, now)
    case _ => true
  }

  lemma EffectStamped(canon: Canon, t: Table, e: Event)
    ensures Stamps(t, Plan(canon, t, e), e.now)
  {
    if Plan(canon, t, e).Replace? {
      ReplacedStamped(canon, t, e);
    }
  }

  lemma RowStamped(t: Table, effect: Effect, now: int, id: int)
    requires WellFormed(t) && Admissible(t, effect) && Stamps(t, effect, now)
    ensures var before, after := FindId(t.rows, id), FindId(Apply(t, effect).rows, id);
            after.Some? ==>
              if before.None? then after.value.updatedAt == after.value.createdAt == now
              else Stamped(before.value, after.value, now)
  {
    ApplyMovesRow(t, effect, id);
    if effect.Replace? {
      FindIdUnique(t.rows, effect.index);
    }
  }

  /** The time of the last step that created the row or moved the net value of one
      of its other columns; the stamp it carried in if no step did. */
  ghost function LastMoved(canon: Canon, t: Table, events: seq<Event>, id: int): int
    requires FindId(Run(canon, t, events).rows, id).Some?
  {
    if events == [] then FindId(t.rows, id).value.updatedAt
    else
      var front := events[..|events| - 1];
      var last := events[|events| - 1];
      var before, after := FindId(Run(canon, t, front).rows, id), FindId(Run(canon, t, events).rows, id);
      if before.None? || Content(after.value) != Content(before.value) then last.now
      else LastMoved(canon, t, front, id)
  }

  /** In every run, `updated_at` is the time of the last step that moved the row. */
  lemma {:induction false} UpdatedAtIsLastMoved(canon: Canon, t: Table, events: seq<Event>, id: int)
    requires WellFormed(t) && FindId(Run(canon, t, events).rows, id).Some?
    ensures FindId(Run(canon, t, events).rows, id).value.updatedAt == LastMoved(canon, t, events, id)
  {
    if events != [] {
      var n := |events| - 1;
      var before := Run(canon, t, events[..n]);
      RunKeepsWellFormed(canon, t, events[..n]);
      StepStamps(canon, before, events[n], id);
      if FindId(before.rows, id).Some? {
        UpdatedAtIsLastMoved(canon, t, events[..n], id);
      }
    }
  }

  // ---- published_at --------------------------------------------------------------------

  predicate Dated(a: Article) {
    a.status == Published ==> a.publishedAt.Some?
  }

  /** The request carries an explicit null publication date. */
  predicate NullsDate(body: Body) {
    body.publishedAt == Sent(None)
  }

  /** An edit leaves an article published without a date exactly when it ends
      published, the first-publish rule does not apply, and the date is nulled by
      the request or was missing and not sent. */
  lemma EditUndatesIff(canon: Canon, a: Article, body: Body, author: Author, routeNow: int, now: int)
    ensures var status := body.status;
            var b := EditedRow(canon, a, body, author, routeNow, now);
            b.status == Published && b.publishedAt.None? <==>
              && (status == Sent(Some(Published)) || (a.status == Published && (status.Unset? || status.value.None?)))
              && !(status == Sent(Some(Published)) && a.publishedAt.None?)
              && (NullsDate(body) || (body.publishedAt.Unset? && a.publishedAt.None?))
  {
  }

  /** Nulling the date of a published article, and nothing else, leaves it published without one. */
  lemma NullingUndates(canon: Canon, a: Article, body: Body, author: Author, routeNow: int, now: int)
    requires a.status == Published && a.publishedAt.Some?
    requires NullsDate(body) && body.status.Unset?
    ensures var b := EditedRow(canon, a, body, author, routeNow, now);
            b.status == Published && b.publishedAt.None? && b.updatedAt == now
  {
  }

  ghost predicate AllDated(t: Table) {
    forall i :: 0 <= i < |t.rows| ==> Dated(t.rows[i])
  }

  /** Only an edit with an explicit null date can leave a published article undated. */
  lemma StepKeepsDated(canon: Canon, t: Table, e: Event)
    requires AllDated(t) && !(e.UpdatePost? && NullsDate(e.body))
    ensures AllDated(Step(canon, t, e))
  {
    var effect := Plan(canon, t, e);
    if effect.Replace? && e.UpdatePost? {
      EditUndatesIff(canon, t.rows[effect.index], e.body, e.author, e.routeNow, e.now);
    }
  }

  /** In every run without an edit that nulls a date, every published article has one. */
  lemma RunKeepsDated(canon: Canon, t: Table, events: seq<Event>)
    requires forall a :: a in t.rows && a.status == Published ==> a.publishedAt.Some?
    requires forall i :: 0 <= i < |events| && events[i].UpdatePost? ==> events[i].body.publishedAt != Sent(None)
    ensures forall a :: a in Run(canon, t, events).rows && a.status == Published ==> a.publishedAt.Some?
  {
    assert AllDated(t) by {
      forall i | 0 <= i < |t.rows|
        ensures Dated(t.rows[i])
      {
        assert t.rows[i] in t.rows;
      }
    }
    RunStaysDated(canon, t, events);
  }

  lemma {:induction false} RunStaysDated(canon: Canon, t: Table, events: seq<Event>)
    requires AllDated(t)
    requires forall i :: 0 <= i < |events| && events[i].UpdatePost? ==> !NullsDate(events[i].body)
    ensures AllDated(Run(canon, t, events))
  {
    if events != [] {
      var n := |events| - 1;
      RunStaysDated(canon, t, events[..n]);
      StepKeepsDated(canon, Run(canon, t, events[..n]), events[n]);
    }
  }

  datatype StatusChange = To(status: Status, at: int)

  function StatusRun(a: Article, changes: seq<StatusChange>): Article {
    if changes == [] then a
    else
      var last := changes[|changes| - 1];
      WithStatus(StatusRun(a, changes[..|changes| - 1]), last.status, last.at)
  }

  function FirstPublish(changes: seq<StatusChange>): Option<int> {
    if changes == [] then None
    else if changes[0].status == Published then Some(changes[0].at)
    else FirstPublish(changes[1..])
  }

  lemma {:induction false} FirstPublishAppend(changes: seq<StatusChange>, c: StatusChange)
    ensures FirstPublish(changes + [c]) ==
            if FirstPublish(changes).Some? then FirstPublish(changes)
            else if c.status == Published then Some(c.at) else None
  {
    if changes == [] {
      assert [c][1..] == [];
      assert changes + [c] == [c];
    } else {
      FirstPublishAppend(changes[1..], c);
      assert (changes + [c])[1..] == changes[1..] + [c];
    }
  }

  /** Archiving and republishing keep the date: a run of status changes sets it at
      most once, to the time of the first publish, and only if it was empty. */
  lemma {:induction false} StatusRunDatesOnce(a: Article, changes: seq<StatusChange>)
    ensures StatusRun(a, changes).publishedAt == if a.publishedAt.Some? then a.publishedAt else FirstPublish(changes)
  {
    if changes != [] {
      var n := |changes| - 1;
      StatusRunDatesOnce(a, changes[..n]);
      FirstPublishAppend(changes[..n], changes[n]);
      assert changes == changes[..n] + [changes[n]];
      StatusStampIffMoved(StatusRun(a, changes[..n]), changes[n].status, changes[n].at);
    }
  }

  /** Automated content never becomes public by itself: after any run of ingests
      and deletions, every published row was there, published, at the start. */
  lemma {:induction false} IngestStaysHidden(canon: Canon, t: Table, events: seq<Event>)
    requires forall i :: 0 <= i < |events| ==> events[i].PublishPost? || events[i].DeletePost?
    ensures forall a :: a in Run(canon, t, events).rows && a.status == Published ==> a in t.rows
  {
    if events != [] {
      var n := |events| - 1;
      IngestStaysHidden(canon, t, events[..n]);
      IngestIsDraft(canon, Run(canon, t, events[..n]), events[n]);
    }
  }

  lemma IngestIsDraft(canon: Canon, t: Table, e: Event)
    requires e.PublishPost? || e.DeletePost?
    ensures forall a :: a in Step(canon, t, e).rows ==> a in t.rows || a.status == Draft
    ensures e.PublishPost? && Plan(canon, t, e).Insert? ==> Plan(canon, t, e).article.htmlContent == e.rendered
  {
  }
}
