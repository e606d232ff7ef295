/** Articles created and published per day, over the last `days` days. */
module Timeline {
  import opened Sequences
  import opened Units
  import opened Articles

  /** The calendar day an instant falls on, counted from the epoch; `::date` in SQL. */
  function DayOf(instant: int): int {
    instant / DAY
  }

  datatype Point = Point(day: int, created: nat, published: nat)

  function CountedCreated(now: int, days: nat): Article -> bool {
    (a: Article) => a.createdAt >= (DayOf(now) - (days - 1)) * DAY
  }

  function CountedPublished(now: int, days: nat): Article -> bool {
    (a: Article) =>
      && a.status == Published && a.publishedAt.Some?
      && a.publishedAt.value >= (DayOf(now) - (days - 1)) * DAY && a.publishedAt.value <= now
  }

  function CreatedOn(day: int): Article -> bool {
    (a: Article) => DayOf(a.createdAt) == day
  }

  function PublishedOn(day: int): Article -> bool {
    (a: Article) => a.publishedAt.Some? && DayOf(a.publishedAt.value) == day
  }

  /** The row of one day: the two grouped counts, joined onto the day axis. */
  function PointOf(table: seq<Article>, now: int, days: nat, day: int): Point {
    Point(day,
          |Filter(CreatedOn(day), Filter(CountedCreated(now, days), table))|,
          |Filter(PublishedOn(day), Filter(CountedPublished(now, days), table))|)
  }

  /** `generate_series` from `first`, `n` days long, left-joined with the counts. */
  function Points(table: seq<Article>, now: int, days: nat, first: int, n: nat): (points: seq<Point>)
    ensures |points| == n
  {
    if n == 0 then [] else Points(table, now, days, first, n - 1) + [PointOf(table, now, days, first + n - 1)]
  }

  /** The query: the axis runs from `today - (days - 1)` to `today`. */
  function PublishingTimeline(table: seq<Article>, now: int, days: nat): seq<Point> {
    Points(table, now, days, DayOf(now) - (days - 1), days)
  }

  function CreatedTotal(points: seq<Point>): nat {
    if points == [] then 0 else CreatedTotal(points[..|points| - 1]) + points[|points| - 1].created
  }

  function PublishedTotal(points: seq<Point>): nat {
    if points == [] then 0 else PublishedTotal(points[..|points| - 1]) + points[|points| - 1].published
  }

  /** Rows of `rows` whose day lies in `[first, first + n)`. */
  function CreatedWithin(first: int, n: nat): Article -> bool {
    (a: Article) => first <= DayOf(a.createdAt) < first + n
  }

  function PublishedWithin(first: int, n: nat): Article -> bool {
    (a: Article) => a.publishedAt.Some? && first <= DayOf(a.publishedAt.value) < first + n
  }

  lemma {:induction false} SplitCount(p: Article -> bool, q: Article -> bool, both: Article -> bool, rows: seq<Article>)
    requires forall a: Article :: both(a) == (p(a) || q(a)) && !(p(a) && q(a))
    ensures |Filter(both, rows)| == |Filter(p, rows)| + |Filter(q, rows)|
  {
    if rows != [] {
      SplitCount(p, q, both, rows[..|rows| - 1]);
    }
  }

  lemma {:induction false} TotalsWithin(table: seq<Article>, now: int, days: nat, first: int, n: nat)
    ensures CreatedTotal(Points(table, now, days, first, n))
            == |Filter(CreatedWithin(first, n), Filter(CountedCreated(now, days), table))|
    ensures PublishedTotal(Points(table, now, days, first, n))
            == |Filter(PublishedWithin(first, n), Filter(CountedPublished(now, days), table))|
  {
    var created, published := Filter(CountedCreated(now, days), table), Filter(CountedPublished(now, days), table);
    if n == 0 {
      FilterNone(CreatedWithin(first, 0), created);
      FilterNone(PublishedWithin(first, 0), published);
    } else {
      var points := Points(table, now, days, first, n);
      TotalsWithin(table, now, days, first, n - 1);
      assert points[..n - 1] == Points(table, now, days, first, n - 1);
      SplitCount(CreatedWithin(first, n - 1), CreatedOn(first + n - 1), CreatedWithin(first, n), created);
      SplitCount(PublishedWithin(first, n - 1), PublishedOn(first + n - 1), PublishedWithin(first, n), published);
    }
  }

  /** The window of a timeline: from the first instant of the first day to the end of today. */
  predicate InWindow(now: int, days: nat, instant: int) {
    DayOf(now) - days < DayOf(instant) <= DayOf(now)
  }

  function CreatedInWindow(now: int, days: nat): Article -> bool {
    (a: Article) => InWindow(now, days, a.createdAt)
  }

  function PublishedInWindow(now: int, days: nat): Article -> bool {
    (a: Article) =>
      && a.status == Published && a.publishedAt.Some?
      && InWindow(now, days, a.publishedAt.value) && a.publishedAt.value <= now
  }

  lemma DayStart(instant: int, day: int)
    ensures instant >= day * DAY <==> DayOf(instant) >= day
  {
  }

  lemma {:induction false} PointAt(table: seq<Article>, now: int, days: nat, first: int, n: nat, i: nat)
    requires i < n
    ensures Points(table, now, days, first, n)[i] == PointOf(table, now, days, first + i)
  {
    if i < n - 1 {
      PointAt(table, now, days, first, n - 1, i);
    }
  }

  /** Every day of the window has a row, in order and ending today; each row counts
      exactly that day; nothing in the window is lost from the totals. */
  lemma TimelineIsComplete(table: seq<Article>, now: int, days: nat)
    requires days >= 1
    ensures var points := PublishingTimeline(table, now, days);
            && |points| == days
            && (forall i :: 0 <= i < days ==> points[i].day == DayOf(now) - (days - 1) + i)
            && CreatedTotal(points) == |Filter(CreatedInWindow(now, days), table)|
            && PublishedTotal(points) == |Filter(PublishedInWindow(now, days), table)|
  {
    var first := DayOf(now) - (days - 1);
    forall i: nat | i < days
      ensures PublishingTimeline(table, now, days)[i].day == first + i
    {
      PointAt(table, now, days, first, days, i);
    }
    TotalsWithin(table, now, days, first, days);
    forall a: Article
      ensures CreatedInWindow(now, days)(a) == (CountedCreated(now, days)(a) && CreatedWithin(first, days)(a))
      ensures PublishedInWindow(now, days)(a) == (CountedPublished(now, days)(a) && PublishedWithin(first, days)(a))
    {
      DayStart(a.createdAt, first);
      if a.publishedAt.Some? {
        DayStart(a.publishedAt.value, first);
      }
    }
    FilterTwice(CountedCreated(now, days), CreatedWithin(first, days), CreatedInWindow(now, days), table);
    FilterTwice(CountedPublished(now, days), PublishedWithin(first, days), PublishedInWindow(now, days), table);
  }

  function PublishedThatDay(now: int, day: int): Article -> bool {
    (a: Article) =>
      a.status == Published && a.publishedAt.Some? && DayOf(a.publishedAt.value) == day && a.publishedAt.value <= now
  }

  /** Each row holds that day's true counts over the whole table. */
  lemma TimelineRowIsTrue(table: seq<Article>, now: int, days: nat, i: nat)
    requires i < days
    ensures var points := PublishingTimeline(table, now, days);
            && |points| == days
            && points[i].created == |Filter(CreatedOn(points[i].day), table)|
            && points[i].published == |Filter(PublishedThatDay(now, points[i].day), table)|
  {
    var first := DayOf(now) - (days - 1);
    var day := first + i;
    PointAt(table, now, days, first, days, i);
    forall a: Article
      ensures CreatedOn(day)(a) == (CountedCreated(now, days)(a) && CreatedOn(day)(a))
      ensures PublishedThatDay(now, day)(a) == (CountedPublished(now, days)(a) && PublishedOn(day)(a))
    {
      DayStart(a.createdAt, first);
      if a.publishedAt.Some? {
        DayStart(a.publishedAt.value, first);
      }
    }
    FilterTwice(CountedCreated(now, days), CreatedOn(day), CreatedOn(day), table);
    FilterTwice(CountedPublished(now, days), PublishedOn(day), PublishedThatDay(now, day), table);
  }

  /** Articles created from one instant up to another. */
  function CreatedBetween(first: int, end: int): Article -> bool {
    (a: Article) => first <= a.createdAt < end
  }

  /** Articles published from one instant up to another, and no later than `now`. */
  function PublishedBetween(first: int, end: int, now: int): Article -> bool {
    (a: Article) =>
      a.status == Published && a.publishedAt.Some? && first <= a.publishedAt.value < end && a.publishedAt.value <= now
  }

  lemma DaySpan(instant: int, first: int, end: int)
    requires first <= end
    ensures first <= DayOf(instant) < end <==> first * 86400000000 <= instant < end * 86400000000
  {
    DayStart(instant, first);
    DayStart(instant, end);
    assert DAY == 86400000000;
  }

  /** Consecutive days of 24 hours, as many as asked for, the last of them holding `now`. */
  lemma TimelineDays(table: seq<Article>, now: int, days: nat)
    requires days >= 1
    ensures var points := PublishingTimeline(table, now, days);
            && |points| == days
            && (forall i :: 0 <= i < days ==> points[i].day == points[0].day + i)
            && points[days - 1].day * 86400000000 <= now < (points[days - 1].day + 1) * 86400000000
  {
    TimelineIsComplete(table, now, days);
    DaySpan(now, DayOf(now), DayOf(now) + 1);
  }

  /** Each row counts the articles of its own 24 hours, over the whole table. */
  lemma TimelineCounts(table: seq<Article>, now: int, days: nat, i: nat)
    requires i < days
    ensures |PublishingTimeline(table, now, days)| == days
    ensures var point := PublishingTimeline(table, now, days)[i];
            var (first, end) := (point.day * 86400000000, (point.day + 1) * 86400000000);
            && point.created == |Filter(CreatedBetween(first, end), table)|
            && point.published == |Filter(PublishedBetween(first, end, now), table)|
  {
    TimelineRowIsTrue(table, now, days, i);
    OneDay(table, now, PublishingTimeline(table, now, days)[i].day);
  }

  /** The columns sum to the articles of all the days together. */
  lemma TimelineTotals(table: seq<Article>, now: int, days: nat)
    requires days >= 1
    ensures |PublishingTimeline(table, now, days)| == days
    ensures var points := PublishingTimeline(table, now, days);
            var (first, end) := (points[0].day * 86400000000, (points[0].day + days) * 86400000000);
            && CreatedTotal(points) == |Filter(CreatedBetween(first, end), table)|
            && PublishedTotal(points) == |Filter(PublishedBetween(first, end, now), table)|
  {
    TimelineIsComplete(table, now, days);
    WholeWindow(table, now, days);
  }

  lemma OneDay(table: seq<Article>, now: int, day: int)
    ensures Filter(CreatedOn(day), table)
            == Filter(CreatedBetween(day * 86400000000, (day + 1) * 86400000000), table)
    ensures Filter(PublishedThatDay(now, day), table)
            == Filter(PublishedBetween(day * 86400000000, (day + 1) * 86400000000, now), table)
  {
    var (first, end) := (day * 86400000000, (day + 1) * 86400000000);
    forall a: Article
      ensures CreatedOn(day)(a) == CreatedBetween(first, end)(a)
      ensures PublishedThatDay(now, day)(a) == PublishedBetween(first, end, now)(a)
    {
      DaySpan(a.createdAt, day, day + 1);
      if a.publishedAt.Some? {
        DaySpan(a.publishedAt.value, day, day + 1);
      }
    }
    FilterSame(CreatedOn(day), CreatedBetween(first, end), table);
    FilterSame(PublishedThatDay(now, day), PublishedBetween(first, end, now), table);
  }

  lemma WholeWindow(table: seq<Article>, now: int, days: nat)
    requires days >= 1
    ensures var day := DayOf(now) - (days - 1);
            var (first, end) := (day * 86400000000, (day + days) * 86400000000);
            && Filter(CreatedInWindow(now, days), table) == Filter(CreatedBetween(first, end), table)
            && Filter(PublishedInWindow(now, days), table) == Filter(PublishedBetween(first, end, now), table)
  {
    var day := DayOf(now) - (days - 1);
    var (first, end) := (day * 86400000000, (day + days) * 86400000000);
    forall a: Article
      ensures CreatedInWindow(now, days)(a) == CreatedBetween(first, end)(a)
      ensures PublishedInWindow(now, days)(a) == PublishedBetween(first, end, now)(a)
    {
      DaySpan(a.createdAt, day, day + days);
      if a.publishedAt.Some? {
        DaySpan(a.publishedAt.value, day, day + days);
      }
    }
    FilterSame(CreatedInWindow(now, days), CreatedBetween(first, end), table);
    FilterSame(PublishedInWindow(now, days), PublishedBetween(first, end, now), table);
  }
}
