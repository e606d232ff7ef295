/** Public category listing and sitemap over one article table. */
module Listing {
  import opened Outcomes
  import opened Sequences
  import opened Ordering
  import opened Paging
  import opened Articles

  const SITEMAP_MAX_ROWS := 50000

  predicate IsPublished(a: Article) {
    a.status == Published
  }

  function InCategory(c: Category): Article -> bool {
    (a: Article) => a.category == c
  }

  function PublishedRows(table: seq<Article>): seq<Article> {
    Filter(IsPublished, table)
  }

  /** Every published row of a category, newest first: what the pages slice. */
  function CategoryListing(table: seq<Article>, c: Category): seq<Article> {
    Sort(NewestFirst, Filter(InCategory(c), PublishedRows(table)))
  }

  /** One page of the category route. */
  function ListCategory(table: seq<Article>, c: Category, page: Option<int>, perPage: Option<int>): Page<Article> {
    Fetch(CategoryListing(table, c), page, perPage)
  }

  /** The published catalogue in the order the sitemap serves it. */
  function Catalogue(table: seq<Article>): seq<Article> {
    Sort(NewestFirst, PublishedRows(table))
  }

  datatype SitemapEntry = SitemapEntry(slug: string, category: Category, publishedAt: Option<int>, updatedAt: int)
  datatype SitemapResponse = SitemapResponse(total: nat, truncated: bool, articles: seq<SitemapEntry>)

  function ToEntry(a: Article): SitemapEntry {
    SitemapEntry(a.slug, a.category, a.publishedAt, a.updatedAt)
  }

  function SitemapRows(table: seq<Article>, limit: nat): seq<Article> {
    Take(Catalogue(table), limit)
  }

  function Sitemap(table: seq<Article>): SitemapResponse {
    var rows := SitemapRows(table, SITEMAP_MAX_ROWS);
    var total := |PublishedRows(table)|;
    SitemapResponse(total, total > |rows|, Map(ToEntry, rows))
  }

  lemma PublishedUntied(table: seq<Article>)
    requires DistinctIds(table)
    ensures Untied(NewestFirst, PublishedRows(table))
  {
    FilterKeepsDistinctIds(IsPublished, table);
    NewestFirstUntied(PublishedRows(table));
  }

  /** The listing does not depend on how the rows are stored: any newest-first
      arrangement of the published rows of the category is this listing. */
  lemma ListingDetermined(table: seq<Article>, c: Category, out: seq<Article>)
    requires DistinctIds(table)
    requires OrderBy(NewestFirst, Filter(InCategory(c), PublishedRows(table)), out)
    ensures out == CategoryListing(table, c)
  {
    var rows := Filter(InCategory(c), PublishedRows(table));
    NewestFirstIsTotal();
    FilterKeepsDistinctIds(IsPublished, table);
    FilterKeepsDistinctIds(InCategory(c), PublishedRows(table));
    NewestFirstUntied(rows);
    SortDetermined(NewestFirst, rows, out);
  }

  /** A row is listed exactly when it is published in that category. */
  lemma ListedIff(table: seq<Article>, c: Category, a: Article)
    ensures a in CategoryListing(table, c) <==> a in table && a.status == Published && a.category == c
  {
    var rows := Filter(InCategory(c), PublishedRows(table));
    NewestFirstIsTotal();
    SortOrders(NewestFirst, rows);
    FilterIn(InCategory(c), PublishedRows(table), a);
    FilterIn(IsPublished, table, a);
    assert a in CategoryListing(table, c) <==> a in multiset(rows);
  }

  /** Newest first: of two rows listed in this order the first is dated if the
      second is, no older, and of the larger id where the dates agree. */
  lemma ListingOrder(table: seq<Article>, c: Category, i: nat, j: nat)
    requires DistinctIds(table) && i < j < |CategoryListing(table, c)|
    ensures var (a, b) := (CategoryListing(table, c)[i], CategoryListing(table, c)[j]);
            && (b.publishedAt.Some? ==> a.publishedAt.Some? && a.publishedAt.value >= b.publishedAt.value)
            && (a.publishedAt == b.publishedAt ==> a.id > b.id)
  {
    var rows := Filter(InCategory(c), PublishedRows(table));
    var listing := CategoryListing(table, c);
    NewestFirstIsTotal();
    SortOrders(NewestFirst, rows);
    FilterKeepsDistinctIds(IsPublished, table);
    FilterKeepsDistinctIds(InCategory(c), PublishedRows(table));
    assert NewestFirst(listing[i], listing[j]);
    if listing[i].id == listing[j].id {
      RepeatedId(rows, listing, i, j);
    }
  }

  /** The catalogue restricted to a category is, in order, that category's listing. */
  lemma CatalogueRestricted(table: seq<Article>, c: Category)
    requires DistinctIds(table)
    ensures Filter(InCategory(c), Catalogue(table)) == CategoryListing(table, c)
  {
    NewestFirstIsTotal();
    PublishedUntied(table);
    FilterSort(NewestFirst, InCategory(c), PublishedRows(table));
  }

  lemma CatalogueSize(table: seq<Article>)
    ensures |Catalogue(table)| == |PublishedRows(table)|
    ensures multiset(Catalogue(table)) == multiset(PublishedRows(table))
  {
    NewestFirstIsTotal();
    SortOrders(NewestFirst, PublishedRows(table));
    assert |multiset(Catalogue(table))| == |multiset(PublishedRows(table))|;
  }

  /** `truncated` is raised exactly past 50,000 published rows; the rows served
      are the newest of the catalogue, and no served row is older than a dropped one. */
  lemma TruncatedIff(table: seq<Article>)
    ensures Sitemap(table).truncated <==> |PublishedRows(table)| > SITEMAP_MAX_ROWS
    ensures Sitemap(table).total == |PublishedRows(table)|
    ensures |Sitemap(table).articles| ==
            if |PublishedRows(table)| > SITEMAP_MAX_ROWS then SITEMAP_MAX_ROWS else |PublishedRows(table)|
    ensures |Sitemap(table).articles| <= |Catalogue(table)|
    ensures forall i :: 0 <= i < |Sitemap(table).articles| ==>
              var (entry, row) := (Sitemap(table).articles[i], Catalogue(table)[i]);
              entry.slug == row.slug && entry.updatedAt == row.updatedAt && entry.publishedAt == row.publishedAt
    ensures forall i, j :: 0 <= i < |Sitemap(table).articles| <= j < |Catalogue(table)| ==>
              NewestFirst(Catalogue(table)[i], Catalogue(table)[j])
  {
    CatalogueSize(table);
    NewestFirstIsTotal();
    SortOrders(NewestFirst, PublishedRows(table));
  }

  /** Truncated or not, the sitemap restricted to a category is an initial
      stretch of that category's listing; untruncated, it is the whole listing. */
  lemma SitemapRestricted(table: seq<Article>, c: Category)
    requires DistinctIds(table)
    ensures Filter(InCategory(c), SitemapRows(table, SITEMAP_MAX_ROWS)) <= CategoryListing(table, c)
    ensures !Sitemap(table).truncated ==>
              Filter(InCategory(c), SitemapRows(table, SITEMAP_MAX_ROWS)) == CategoryListing(table, c)
  {
    var all := Catalogue(table);
    CatalogueRestricted(table, c);
    TruncatedIff(table);
    CatalogueSize(table);
    var n := if SITEMAP_MAX_ROWS <= |all| then SITEMAP_MAX_ROWS else |all|;
    assert SitemapRows(table, SITEMAP_MAX_ROWS) == all[..n];
    FilterPrefix(InCategory(c), all, n);
    assert all[..|all|] == all;
  }

  /** The listings of a run of categories, put together. */
  function ListingsOf(table: seq<Article>, categories: seq<Category>): multiset<Article> {
    if categories == [] then multiset{}
    else
      var n := |categories| - 1;
      ListingsOf(table, categories[..n]) + multiset(CategoryListing(table, categories[n]))
  }

  lemma {:induction false} ListingsCount(table: seq<Article>, categories: seq<Category>, a: Article)
    requires Distinct(categories)
    ensures ListingsOf(table, categories)[a] ==
            if a.category in categories then multiset(PublishedRows(table))[a] else 0
  {
    if categories != [] {
      var n := |categories| - 1;
      var c := categories[n];
      ListingsCount(table, categories[..n], a);
      var rows := Filter(InCategory(c), PublishedRows(table));
      NewestFirstIsTotal();
      SortOrders(NewestFirst, rows);
      FilterCount(InCategory(c), PublishedRows(table), a);
      assert multiset(CategoryListing(table, c))[a] == multiset(rows)[a];
    }
  }

  lemma CategoriesDistinct()
    ensures Distinct(CATEGORIES)
  {
  }

  lemma EveryCategoryNamed(c: Category)
    ensures c in CATEGORIES
  {
    match c
    case LatestJob => assert CATEGORIES[0] == c;
    case AdmitCard => assert CATEGORIES[1] == c;
    case Result => assert CATEGORIES[2] == c;
    case AnswerKey => assert CATEGORIES[3] == c;
    case Admission => assert CATEGORIES[4] == c;
    case Syllabus => assert CATEGORIES[5] == c;
    case Scholarship => assert CATEGORIES[6] == c;
    case Tender => assert CATEGORIES[7] == c;
    case SarkariWebsite => assert CATEGORIES[8] == c;
    case SarkariMobileApp => assert CATEGORIES[9] == c;
    case Blog => assert CATEGORIES[10] == c;
  }

  /** The eleven listings partition the untruncated sitemap: every row of it is
      in exactly one listing, as often as it is in the sitemap. */
  lemma ListingsPartitionSitemap(table: seq<Article>)
    requires !Sitemap(table).truncated
    ensures ListingsOf(table, CATEGORIES) == multiset(SitemapRows(table, SITEMAP_MAX_ROWS))
  {
    CatalogueSize(table);
    TruncatedIff(table);
    var all := Catalogue(table);
    assert SitemapRows(table, SITEMAP_MAX_ROWS) == all;
    CategoriesDistinct();
    var a, b := ListingsOf(table, CATEGORIES), multiset(all);
    forall x: Article
      ensures a[x] == b[x]
    {
      EveryCategoryNamed(x.category);
      ListingsCount(table, CATEGORIES, x);
    }
    SameCounts(a, b);
  }

  /** Paging every category at the largest page size finds the whole sitemap:
      an untruncated sitemap leaves no category beyond the reach of the walk. */
  lemma SitemapReachedByPaging(table: seq<Article>, c: Category, steps: nat)
    requires DistinctIds(table) && !Sitemap(table).truncated
    requires steps >= LastPage(CategoryListing(table, c), Some(PUBLIC_PAGE_SIZE_MAX))
    ensures var pages := Walk(CategoryListing(table, c), Some(PUBLIC_PAGE_SIZE_MAX), steps);
            && |pages| == LastPage(CategoryListing(table, c), Some(PUBLIC_PAGE_SIZE_MAX))
            && pages[|pages| - 1].nextPage == None
            && Items(pages) == Filter(InCategory(c), SitemapRows(table, SITEMAP_MAX_ROWS))
            && forall i :: 0 <= i < |pages| ==>
                 pages[i] == ListCategory(table, c, Some(i + 1), Some(PUBLIC_PAGE_SIZE_MAX))
  {
    var rows := CategoryListing(table, c);
    SitemapRestricted(table, c);
    FilterLength(InCategory(c), SitemapRows(table, SITEMAP_MAX_ROWS));
    WalkComplete(rows, Some(PUBLIC_PAGE_SIZE_MAX), steps);
    forall i | 0 <= i < |Walk(rows, Some(PUBLIC_PAGE_SIZE_MAX), steps)|
      ensures Walk(rows, Some(PUBLIC_PAGE_SIZE_MAX), steps)[i]
              == ListCategory(table, c, Some(i + 1), Some(PUBLIC_PAGE_SIZE_MAX))
    {
      WalkAt(rows, Some(PUBLIC_PAGE_SIZE_MAX), steps, i);
      FetchShape(rows, i + 1, Some(PUBLIC_PAGE_SIZE_MAX));
    }
  }

  /** Newest first, undated last, the larger id first where dates agree; no row twice. */
  ghost predicate NewestOrder(rows: seq<Article>) {
    forall i, j :: 0 <= i < j < |rows| ==>
      && (rows[j].publishedAt.Some? ==>
            rows[i].publishedAt.Some? && rows[i].publishedAt.value >= rows[j].publishedAt.value)
      && (rows[i].publishedAt == rows[j].publishedAt ==> rows[i].id > rows[j].id)
      && rows[i].id != rows[j].id
  }

  lemma SortedIs(rows: seq<Article>, sorted: seq<Article>)
    requires DistinctIds(rows) && sorted == Sort(NewestFirst, rows)
    ensures NewestOrder(sorted) && forall a :: a in sorted <==> a in rows
  {
    NewestFirstIsTotal();
    SortOrders(NewestFirst, rows);
    forall a
      ensures a in sorted <==> a in rows
    {
      assert a in sorted <==> a in multiset(rows);
    }
    forall i, j | 0 <= i < j < |sorted|
      ensures sorted[i].id != sorted[j].id && NewestFirst(sorted[i], sorted[j])
    {
      RepeatedId(rows, sorted, i, j);
    }
  }

  /** One page of a category, in full: the published rows of the category, newest first,
      cut at the page's two ends, with the true total. */
  lemma CategoryPageIs(table: seq<Article>, c: Category, page: Option<int>, perPage: Option<int>)
      returns (rows: seq<Article>)
    requires DistinctIds(table)
    requires (page.Some? ==> page.value >= 1) && (perPage.Some? ==> perPage.value >= 1)
    ensures NewestOrder(rows) && forall a :: a in rows <==> a in table && a.status == Published && a.category == c
    ensures PageOf(ListCategory(table, c, page, perPage), rows, page, perPage)
  {
    rows := CategoryListing(table, c);
    PageIs(rows, page, perPage);
    FilterKeepsDistinctIds(IsPublished, table);
    FilterKeepsDistinctIds(InCategory(c), PublishedRows(table));
    SortedIs(Filter(InCategory(c), PublishedRows(table)), rows);
    forall a
      ensures a in rows <==> a in table && a.status == Published && a.category == c
    {
      ListedIff(table, c, a);
    }
  }

  /** The sitemap, in full: total, truncation past 50,000, and for each of the newest
      50,000 published rows its slug, category and dates. */
  lemma SitemapIs(table: seq<Article>) returns (rows: seq<Article>)
    requires DistinctIds(table)
    ensures NewestOrder(rows) && forall a :: a in rows <==> a in table && a.status == Published
    ensures var r := Sitemap(table);
            && r.total == |rows| && (r.truncated <==> |rows| > 50000)
            && |r.articles| == (if |rows| <= 50000 then |rows| else 50000)
            && forall i :: 0 <= i < |r.articles| ==>
                 && r.articles[i].slug == rows[i].slug && r.articles[i].category == rows[i].category
                 && r.articles[i].publishedAt == rows[i].publishedAt && r.articles[i].updatedAt == rows[i].updatedAt
  {
    rows := Catalogue(table);
    CatalogueSize(table);
    TruncatedIff(table);
    FilterKeepsDistinctIds(IsPublished, table);
    SortedIs(PublishedRows(table), rows);
    forall a
      ensures a in rows <==> a in table && a.status == Published
    {
      FilterIn(IsPublished, table, a);
    }
  }
}
