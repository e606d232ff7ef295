/** Clamped page parameters, list envelopes, and the client walk along `next_page`. */
module Paging {
  import opened Outcomes
  import opened Sequences

  const PUBLIC_PAGE_SIZE := 15
  const PUBLIC_PAGE_SIZE_MAX := 50
  const MAX_LIST_PAGE := 1000

  datatype PageParams = PageParams(page: int, perPage: int) {
    function Offset(): int {
      (page - 1) * perPage
    }

    /** Ceiling division written with floor division, and never below one page. */
    function TotalPages(total: nat): int
      requires perPage > 0
    {
      var pages := -((0 - total) / perPage);
      if pages < 1 then 1 else pages
    }
  }

  function Clamp(value: Option<int>, default: int, low: int, high: int): int {
    match value
    case None => default
    case Some(v) =>
      var capped := if v < high then v else high;
      if low < capped then capped else low
  }

  function PublicPageParams(page: Option<int>, perPage: Option<int>): PageParams {
    PageParams(Clamp(page, 1, 1, MAX_LIST_PAGE),
               Clamp(perPage, PUBLIC_PAGE_SIZE, 1, PUBLIC_PAGE_SIZE_MAX))
  }

  datatype Page<+T> = Page(
    items: seq<T>,
    page: int,
    perPage: int,
    total: nat,
    totalPages: int,
    hasMore: bool,
    nextPage: Option<int>)

  function Build<T>(items: seq<T>, total: nat, params: PageParams): Page<T>
    requires params.perPage > 0
  {
    var totalPages := params.TotalPages(total);
    var hasMore := params.page < totalPages;
    Page(items, params.page, params.perPage, total, totalPages, hasMore,
         if hasMore then Some(params.page + 1) else None)
  }

  lemma OffsetNatural(page: Option<int>, perPage: Option<int>)
    ensures PublicPageParams(page, perPage).Offset() >= 0
  {
    var params := PublicPageParams(page, perPage);
    assert params.page - 1 >= 0 && params.perPage >= 1;
    Product(params.page - 1, params.perPage);
  }

  lemma Product(a: nat, b: nat)
    ensures a * b >= 0
  {
  }

  /** One request: count the rows, take the slice, wrap it. `rows` is the ordered query result. */
  function Fetch<T>(rows: seq<T>, page: Option<int>, perPage: Option<int>): Page<T> {
    var params := PublicPageParams(page, perPage);
    OffsetNatural(page, perPage);
    Build(Slice(rows, params.Offset(), params.perPage), |rows|, params)
  }

  /** The first `steps` responses a client receives when it starts from `page`
      and keeps sending back the `next_page` it was given. */
  function Follow<T>(respond: int -> Page<T>, page: int, steps: nat): seq<Page<T>>
    decreases steps
  {
    if steps == 0 then []
    else
      var first := respond(page);
      match first.nextPage
      case None => [first]
      case Some(next) => [first] + Follow(respond, next, steps - 1)
  }

  function Responder<T>(rows: seq<T>, perPage: Option<int>): int -> Page<T> {
    (page: int) => Fetch(rows, Some(page), perPage)
  }

  /** The client's walk from page 1. */
  function Walk<T>(rows: seq<T>, perPage: Option<int>, steps: nat): seq<Page<T>> {
    Follow(Responder(rows, perPage), 1, steps)
  }

  function Items<T>(pages: seq<Page<T>>): seq<T> {
    if pages == [] then [] else pages[0].items + Items(pages[1..])
  }

  lemma ItemsAppend<T>(pages: seq<Page<T>>, page: Page<T>)
    ensures Items(pages + [page]) == Items(pages) + page.items
  {
    if pages == [] {
      assert Items([page]) == page.items + Items<T>([]);
    } else {
      ItemsAppend(pages[1..], page);
      assert (pages + [page])[1..] == pages[1..] + [page];
    }
  }

  /** `total_pages` is the least positive number of pages that holds `total` rows. */
  lemma TotalPagesLeast(params: PageParams, total: nat)
    requires params.perPage > 0
    ensures var n := params.TotalPages(total);
            n >= 1 && total <= n * params.perPage && (n > 1 ==> (n - 1) * params.perPage < total)
  {
    var q := (0 - total) / params.perPage;
    var r := (0 - total) % params.perPage;
    assert 0 - total == params.perPage * q + r;
    assert 0 <= r < params.perPage;
    if q >= 0 {
      assert params.perPage * q >= 0;
    } else {
      assert (-q) * params.perPage == total + r;
      assert (-q - 1) * params.perPage == total + r - params.perPage;
    }
  }

  /** How the page number a client sends relates to the page it is served. */
  function ServedPage(page: int): int {
    if page < MAX_LIST_PAGE then page else MAX_LIST_PAGE
  }

  function LastPage<T>(rows: seq<T>, perPage: Option<int>): int {
    PublicPageParams(None, perPage).TotalPages(|rows|)
  }

  /** `page` is clamped on the way in, `next_page` is not clamped on the way out. */
  lemma FetchShape<T>(rows: seq<T>, page: int, perPage: Option<int>)
    requires page >= 1
    ensures var r := Fetch(rows, Some(page), perPage);
            && r == Fetch(rows, Some(ServedPage(page)), perPage)
            && r.page == ServedPage(page) && r.perPage == PerPage(perPage) && 1 <= r.perPage <= PUBLIC_PAGE_SIZE_MAX
            && r.total == |rows| && r.totalPages == LastPage(rows, perPage)
            && (r.hasMore <==> r.nextPage.Some?)
            && r.nextPage == if ServedPage(page) < LastPage(rows, perPage) then Some(ServedPage(page) + 1) else None
  {
  }

  /** Every page is the one its clamped number names, and announces a next page
      exactly below page `last`. */
  ghost predicate Serves<T>(respond: int -> Page<T>, last: int) {
    forall page :: page >= 1 ==> ServesAt(respond, last, page)
  }

  predicate ServesAt<T(==)>(respond: int -> Page<T>, last: int, page: int) {
    && respond(page) == respond(ServedPage(page))
    && respond(page).nextPage == if ServedPage(page) < last then Some(ServedPage(page) + 1) else None
  }

  function Responses(last: int, page: int, steps: nat): nat
    requires page <= last
  {
    if last <= MAX_LIST_PAGE && last - page + 1 <= steps then last - page + 1 else steps
  }

  lemma {:induction false} FollowLength<T>(respond: int -> Page<T>, last: int, page: int, steps: nat)
    requires Serves(respond, last) && 1 <= page <= last
    ensures |Follow(respond, page, steps)| == Responses(last, page, steps)
    decreases steps
  {
    assert ServesAt(respond, last, page);
    if steps != 0 && ServedPage(page) < last {
      FollowLength(respond, last, ServedPage(page) + 1, steps - 1);
    }
  }

  lemma {:induction false} FollowAt<T>(respond: int -> Page<T>, last: int, page: int, steps: nat, i: nat)
    requires Serves(respond, last) && 1 <= page <= last
    requires i < |Follow(respond, page, steps)|
    ensures Follow(respond, page, steps)[i] == respond(ServedPage(page + i))
    decreases steps
  {
    assert ServesAt(respond, last, page);
    if i > 0 {
      FollowAt(respond, last, ServedPage(page) + 1, steps - 1, i - 1);
      assert ServedPage(ServedPage(page) + 1 + (i - 1)) == ServedPage(page + i);
    }
  }

  lemma FetchServes<T>(rows: seq<T>, perPage: Option<int>)
    ensures Serves(Responder(rows, perPage), LastPage(rows, perPage))
    ensures LastPage(rows, perPage) >= 1
  {
    forall page: int | page >= 1
      ensures ServesAt(Responder(rows, perPage), LastPage(rows, perPage), page)
    {
      FetchShape(rows, page, perPage);
    }
  }

  lemma WalkLength<T>(rows: seq<T>, perPage: Option<int>, steps: nat)
    ensures LastPage(rows, perPage) >= 1
    ensures |Walk(rows, perPage, steps)| == Responses(LastPage(rows, perPage), 1, steps)
  {
    FetchServes(rows, perPage);
    FollowLength(Responder(rows, perPage), LastPage(rows, perPage), 1, steps);
  }

  lemma WalkAt<T>(rows: seq<T>, perPage: Option<int>, steps: nat, i: nat)
    requires i < |Walk(rows, perPage, steps)|
    ensures Walk(rows, perPage, steps)[i] == Fetch(rows, Some(ServedPage(1 + i)), perPage)
  {
    FetchServes(rows, perPage);
    FollowAt(Responder(rows, perPage), LastPage(rows, perPage), 1, steps, i);
  }

  function PerPage(perPage: Option<int>): nat {
    PublicPageParams(None, perPage).perPage
  }

  lemma TakeThenSlice<T>(rows: seq<T>, k: nat, n: nat, m: nat)
    requires m == k + n
    ensures Take(rows, k) + Slice(rows, k, n) == Take(rows, m)
  {
  }

  lemma NextItems<T>(pages: seq<Page<T>>, k: nat, seen: seq<T>)
    requires 0 < k <= |pages| && Items(pages[..k - 1]) == seen
    ensures Items(pages[..k]) == seen + pages[k - 1].items
  {
    assert pages[..k] == pages[..k - 1] + [pages[k - 1]];
    ItemsAppend(pages[..k - 1], pages[k - 1]);
  }

  lemma FetchItems<T>(rows: seq<T>, perPage: Option<int>, k: int)
    requires 1 <= k <= MAX_LIST_PAGE
    ensures (k - 1) * PerPage(perPage) >= 0
    ensures Fetch(rows, Some(k), perPage).items == Slice(rows, (k - 1) * PerPage(perPage), PerPage(perPage))
  {
    Product(k - 1, PerPage(perPage));
  }

  lemma WalkItems<T>(rows: seq<T>, perPage: Option<int>, steps: nat, i: nat)
    requires i < |Walk(rows, perPage, steps)| && i < MAX_LIST_PAGE
    ensures Walk(rows, perPage, steps)[i].items == Slice(rows, Rows(i, perPage), PerPage(perPage))
  {
    WalkAt(rows, perPage, steps, i);
    FetchItems(rows, perPage, i + 1);
  }

  /** How many rows `pages` full pages hold. */
  function Rows(pages: nat, perPage: Option<int>): (n: nat)
    ensures n == pages * PerPage(perPage)
  {
    if pages == 0 then 0 else Rows(pages - 1, perPage) + PerPage(perPage)
  }

  /** The first `k` pages of the walk hold the first `k * per_page` rows, for every `k` up to the page clamp. */
  lemma {:induction false} WalkPrefix<T>(rows: seq<T>, perPage: Option<int>, steps: nat, k: nat)
    requires k <= |Walk(rows, perPage, steps)| && k <= MAX_LIST_PAGE
    ensures Items(Walk(rows, perPage, steps)[..k]) == Take(rows, Rows(k, perPage))
  {
    var pages := Walk(rows, perPage, steps);
    if k == 0 {
      assert pages[..0] == [];
    } else {
      WalkPrefix(rows, perPage, steps, k - 1);
      WalkItems(rows, perPage, steps, k - 1);
      NextItems(pages, k, Take(rows, Rows(k - 1, perPage)));
      TakeThenSlice(rows, Rows(k - 1, perPage), PerPage(perPage), Rows(k, perPage));
    }
  }

  /** Up to 1000 full pages, the walk stops by itself, on its last page, having
      served exactly the listing: no row repeated, none skipped. */
  lemma WalkComplete<T>(rows: seq<T>, perPage: Option<int>, steps: nat)
    requires |rows| <= MAX_LIST_PAGE * PerPage(perPage)
    requires steps >= LastPage(rows, perPage)
    ensures var pages := Walk(rows, perPage, steps);
            && |pages| == LastPage(rows, perPage)
            && pages[|pages| - 1].nextPage == None
            && Items(pages) == rows
  {
    var last := LastPage(rows, perPage);
    var n := PerPage(perPage);
    TotalPagesLeast(PublicPageParams(None, perPage), |rows|);
    if last > MAX_LIST_PAGE {
      ProductMonotone(MAX_LIST_PAGE, last - 1, n);
      assert false;
    }
    var pages := Walk(rows, perPage, steps);
    WalkLength(rows, perPage, steps);
    WalkPrefix(rows, perPage, steps, last);
    assert pages[..last] == pages;
    WalkAt(rows, perPage, steps, last - 1);
    FetchShape(rows, last, perPage);
  }

  lemma ProductMonotone(a: nat, b: nat, n: nat)
    requires a <= b
    ensures a * n <= b * n
  {
  }

  /** Past 1000 full pages the walk never stops: from the 1000th response on
      every response is the same page, still announcing page 1001, and the
      client has seen only the first `1000 * per_page` rows. */
  lemma WalkStuck<T>(rows: seq<T>, perPage: Option<int>, steps: nat)
    requires |rows| > MAX_LIST_PAGE * PerPage(perPage)
    ensures var pages := Walk(rows, perPage, steps);
            && |pages| == steps
            && (forall i :: 0 <= i < steps ==> pages[i].nextPage.Some?)
            && (forall i :: MAX_LIST_PAGE <= i < steps ==>
                  pages[i] == pages[MAX_LIST_PAGE - 1] && pages[i].nextPage == Some(MAX_LIST_PAGE + 1))
            && (steps >= MAX_LIST_PAGE ==>
                  Items(pages[..MAX_LIST_PAGE]) == rows[..MAX_LIST_PAGE * PerPage(perPage)])
  {
    var n := PerPage(perPage);
    TotalPagesLeast(PublicPageParams(None, perPage), |rows|);
    var last := LastPage(rows, perPage);
    if last <= MAX_LIST_PAGE {
      ProductMonotone(last, MAX_LIST_PAGE, n);
      assert false;
    }
    var pages := Walk(rows, perPage, steps);
    WalkLength(rows, perPage, steps);
    forall i | 0 <= i < steps
      ensures pages[i].nextPage == Some(ServedPage(1 + i) + 1)
      ensures MAX_LIST_PAGE <= i ==> pages[i] == pages[MAX_LIST_PAGE - 1]
    {
      WalkAt(rows, perPage, steps, i);
      FetchShape(rows, ServedPage(1 + i), perPage);
      if MAX_LIST_PAGE <= i {
        WalkAt(rows, perPage, steps, MAX_LIST_PAGE - 1);
        assert ServedPage(1 + i) == ServedPage(1 + (MAX_LIST_PAGE - 1));
      }
    }
    if steps >= MAX_LIST_PAGE {
      WalkPrefix(rows, perPage, steps, MAX_LIST_PAGE);
    }
  }

  lemma SliceWithin<T>(rows: seq<T>, k: int, perPage: Option<int>)
    requires 1 <= k <= MAX_LIST_PAGE && |rows| > MAX_LIST_PAGE * PerPage(perPage)
    ensures forall x :: x in Fetch(rows, Some(k), perPage).items ==> x in rows[..MAX_LIST_PAGE * PerPage(perPage)]
  {
    var n := PerPage(perPage);
    FetchItems(rows, perPage, k);
    ProductMonotone(k, MAX_LIST_PAGE, n);
    var offset := (k - 1) * n;
    assert offset + n == k * n;
    forall x | x in Fetch(rows, Some(k), perPage).items
      ensures x in rows[..MAX_LIST_PAGE * n]
    {
      var i :| 0 <= i < n && Slice(rows, offset, n)[i] == x;
      assert rows[..MAX_LIST_PAGE * n][offset + i] == x;
    }
  }

  /** How many rows the page clamp lets a client see. */
  function Reach(perPage: Option<int>): nat {
    MAX_LIST_PAGE * PerPage(perPage)
  }

  /** Everything a response shows lies in the first `n` rows. */
  ghost predicate ShowsOnly<T>(pages: seq<Page<T>>, rows: seq<T>, n: nat) {
    n <= |rows| && forall i, x :: 0 <= i < |pages| && x in pages[i].items ==> x in rows[..n]
  }

  /** The walk ended by itself exactly if the rows are within reach, and then it
      served them all; if it did not end, no response shows a row out of reach. */
  ghost predicate EndsWithinReach<T>(pages: seq<Page<T>>, rows: seq<T>, perPage: Option<int>) {
    && pages != []
    && (pages[|pages| - 1].nextPage == None <==> |rows| <= Reach(perPage))
    && (pages[|pages| - 1].nextPage == None ==> Items(pages) == rows)
    && (pages[|pages| - 1].nextPage.Some? ==> ShowsOnly(pages, rows, Reach(perPage)))
  }

  /** The walk ends by itself exactly up to 1000 full pages, and then it has served
      the whole listing; past that no response ever shows a later row. */
  lemma WalkEndsIff<T>(rows: seq<T>, perPage: Option<int>, steps: nat)
    requires steps >= LastPage(rows, perPage)
    ensures EndsWithinReach(Walk(rows, perPage, steps), rows, perPage)
  {
    WalkLength(rows, perPage, steps);
    if |rows| <= Reach(perPage) {
      WalkComplete(rows, perPage, steps);
    } else {
      WalkStuck(rows, perPage, steps);
      forall i | 0 <= i < |Walk(rows, perPage, steps)|
        ensures forall x :: x in Walk(rows, perPage, steps)[i].items ==> x in rows[..Reach(perPage)]
      {
        WalkAt(rows, perPage, steps, i);
        SliceWithin(rows, ServedPage(1 + i), perPage);
      }
    }
  }

  /** Everything a response says about its rows, in plain numbers: an absent page is
      page 1, a page past 1000 is page 1000; an absent size is 15, a size past 50 is 50; the
      rows between the two page ends; the least positive number of pages that holds the
      total; and a next page exactly below that number. */
  predicate PageOf<T(==)>(r: Page<T>, rows: seq<T>, page: Option<int>, perPage: Option<int>) {
    && r.page == (if page.None? then 1 else if page.value <= 1000 then page.value else 1000)
    && r.perPage == (if perPage.None? then 15 else if perPage.value <= 50 then perPage.value else 50)
    && r.items == Between(rows, (r.page - 1) * r.perPage, r.page * r.perPage)
    && r.total == |rows|
    && r.totalPages >= 1 && |rows| <= r.totalPages * r.perPage
    && (r.totalPages > 1 ==> (r.totalPages - 1) * r.perPage < |rows|)
    && (r.hasMore <==> r.page < r.totalPages)
    && r.nextPage == (if r.page < r.totalPages then Some(r.page + 1) else None)
  }

  lemma PageIs<T>(rows: seq<T>, page: Option<int>, perPage: Option<int>)
    requires (page.Some? ==> page.value >= 1) && (perPage.Some? ==> perPage.value >= 1)
    ensures PageOf(Fetch(rows, page, perPage), rows, page, perPage)
  {
    var params := PublicPageParams(page, perPage);
    TotalPagesLeast(params, |rows|);
    OffsetNatural(page, perPage);
    PageEnds(rows, params.page, params.perPage);
  }

  lemma PageEnds<T>(rows: seq<T>, page: int, size: int)
    requires page >= 1 && size >= 1
    ensures (page - 1) * size >= 0
    ensures Slice(rows, (page - 1) * size, size) == Between(rows, (page - 1) * size, page * size)
  {
    Product(page - 1, size);
    assert page * size == (page - 1) * size + size;
  }

  /** The rows from position `first` up to position `last`, as far as there are any. */
  function Between<T>(rows: seq<T>, first: int, last: int): seq<T> {
    seq(if first < 0 || |rows| <= first || last <= first then 0 else (if last < |rows| then last else |rows|) - first,
        i requires 0 <= i && 0 <= first && first + i < |rows| => rows[first + i])
  }
}
