/** Rows of the article table, as the service maps them. */
module Articles {
  import opened Outcomes
  import opened Sequences
  import opened Ordering

  datatype Category =
    | LatestJob | AdmitCard | Result | AnswerKey | Admission | Syllabus
    | Scholarship | Tender | SarkariWebsite | SarkariMobileApp | Blog

  /** The public taxonomy, in display order. */
  const CATEGORIES: seq<Category> := [
    LatestJob, AdmitCard, Result, AnswerKey, Admission, Syllabus,
    Scholarship, Tender, SarkariWebsite, SarkariMobileApp, Blog]

  datatype Status = Draft | Published | Archived

  datatype Media = Media(url: string, title: string)
  datatype Faq = Faq(question: string, answer: string)
  datatype Link = Link(cta: string, url: string)

  /** Instants are naive IST microseconds; `htmlContent` is already sanitised. */
  datatype Article = Article(
    id: int,
    title: string,
    description: string,
    slug: string,
    category: Category,
    htmlContent: string,
    status: Status,
    publishedAt: Option<int>,
    createdAt: int,
    updatedAt: int,
    authorId: Option<string>,
    authorName: Option<string>,
    instagram: seq<Media>,
    youtube: seq<Media>,
    faq: seq<Faq>,
    links: seq<Link>,
    coverImageUrl: Option<string>,
    searchKeyword: seq<string>,
    metaTitle: Option<string>,
    metaDescription: Option<string>)

  /** `id` is the primary key. */
  ghost predicate DistinctIds(rows: seq<Article>) {
    forall i, j :: 0 <= i < j < |rows| ==> rows[i].id != rows[j].id
  }

  /** The unique constraint on `slug`. */
  ghost predicate DistinctSlugs(rows: seq<Article>) {
    forall i, j :: 0 <= i < j < |rows| ==> rows[i].slug != rows[j].slug
  }

  /** `published_at DESC NULLS LAST, id DESC`: may `a` come before `b`? */
  predicate NewestFirst(a: Article, b: Article) {
    match (a.publishedAt, b.publishedAt)
    case (Some(x), Some(y)) => x > y || (x == y && a.id >= b.id)
    case (Some(_), None) => true
    case (None, Some(_)) => false
    case (None, None) => a.id >= b.id
  }

  lemma NewestFirstIsTotal()
    ensures TotalPreorder(NewestFirst)
  {
  }

  /** The primary key breaks every tie, so paging cannot repeat or skip a row. */
  lemma NewestFirstUntied(rows: seq<Article>)
    requires DistinctIds(rows)
    ensures Untied(NewestFirst, rows)
  {
  }

  lemma {:induction false} FilterKeepsDistinctIds(p: Article -> bool, rows: seq<Article>)
    requires DistinctIds(rows)
    ensures DistinctIds(Filter(p, rows))
  {
    if rows != [] {
      var n := |rows| - 1;
      FilterKeepsDistinctIds(p, rows[..n]);
      var kept := Filter(p, rows[..n]);
      forall i | 0 <= i < |kept|
        ensures kept[i].id != rows[n].id
      {
        FilterIn(p, rows[..n], kept[i]);
      }
    }
  }

  lemma RepeatedId(rows: seq<Article>, listing: seq<Article>, i: nat, j: nat)
    requires DistinctIds(rows) && multiset(listing) == multiset(rows)
    requires i < j < |listing|
    ensures listing[i].id != listing[j].id
  {
    var a, b := listing[i], listing[j];
    SameElements(listing, rows, a);
    SameElements(listing, rows, b);
    if a.id == b.id {
      assert a == b;
      assert listing == listing[..i] + [a] + listing[i + 1..j] + [a] + listing[j + 1..];
      assert multiset(listing)[a] >= 2;
      CountOnce(rows, a);
    }
  }

  lemma {:induction false} CountOnce(rows: seq<Article>, a: Article)
    requires DistinctIds(rows)
    ensures multiset(rows)[a] <= 1
  {
    if rows != [] {
      var n := |rows| - 1;
      CountOnce(rows[..n], a);
      assert rows == rows[..n] + [rows[n]];
    }
  }
}
