/** The console's filtered listing: every status, narrowed by category, status and
    IST days, newest first by the chosen date. */
module AdminListing {
  import opened Outcomes
  import opened Sequences
  import opened Ordering
  import opened Articles
  import Dates

  datatype DateField = ByCreated | ByUpdated

  /** The filters of a request. `matches` is the text search on title and slug. */
  datatype Criteria = Criteria(
    matches: Article -> bool,
    category: Option<Category>,
    status: Option<Status>,
    field: DateField,
    from: Option<string>,
    to: Option<string>)

  /** The route accepts only `NNNN-NN-NN`. */
  predicate DaysWritten(c: Criteria) {
    (c.from.Some? ==> Dates.DayPattern(c.from.value)) && (c.to.Some? ==> Dates.DayPattern(c.to.value))
  }

  /** The filtered column, in microseconds of the calendar's time line. */
  function Column(field: DateField, a: Article): int {
    if field == ByUpdated then a.updatedAt else a.createdAt
  }

  function InRange(c: Criteria, lower: Option<int>, upper: Option<int>): Article -> bool {
    (a: Article) =>
      && c.matches(a)
      && (c.category.Some? ==> a.category == c.category.value)
      && (c.status.Some? ==> a.status == c.status.value)
      && (lower.Some? ==> Column(c.field, a) >= lower.value)
      && (upper.Some? ==> Column(c.field, a) < upper.value)
  }

  /** The chosen date descending, then the id descending. */
  function NewestBy(field: DateField): (Article, Article) -> bool {
    (a: Article, b: Article) =>
      Column(field, a) > Column(field, b) || (Column(field, a) == Column(field, b) && a.id >= b.id)
  }

  /** Both bounds of a day, if one is given; either filter computes both. */
  function Bounds(day: Option<string>): Result<Option<(int, int)>, Dates.Error>
    requires day.Some? ==> Dates.DayPattern(day.value)
  {
    match day
    case None => Ok(None)
    case Some(s) =>
      match Dates.IstDayBounds(s)
      case Err(e) => Err(e)
      case Ok(bounds) => Ok(Some((Dates.Micros(bounds.0), Dates.Micros(bounds.1))))
  }

  function Start(bounds: Option<(int, int)>): Option<int> {
    if bounds.Some? then Some(bounds.value.0) else None
  }

  function End(bounds: Option<(int, int)>): Option<int> {
    if bounds.Some? then Some(bounds.value.1) else None
  }

  /** The ordered rows that the pages slice. */
  function Rows(table: seq<Article>, c: Criteria): Result<seq<Article>, Dates.Error>
    requires DaysWritten(c)
  {
    match Bounds(c.from)
    case Err(e) => Err(e)
    case Ok(from) =>
      match Bounds(c.to)
      case Err(e) => Err(e)
      case Ok(to) => Ok(Sort(NewestBy(c.field), Filter(InRange(c, Start(from), End(to)), table)))
  }

  lemma NewestByIsTotal(field: DateField)
    ensures TotalPreorder(NewestBy(field))
  {
  }

  predicate Unusable(day: string)
    requires Dates.DayPattern(day)
  {
    !Dates.ValidDate(Dates.DateOf(day)) || Dates.DateOf(day) == Dates.Date(9999, 12, 31)
  }

  lemma BoundsFail(day: Option<string>)
    requires day.Some? ==> Dates.DayPattern(day.value)
    ensures Bounds(day).Err? <==> day.Some? && Unusable(day.value)
  {
    if day.Some? {
      Dates.BoundsErr(day.value);
    }
  }

  /** The listing fails exactly when a given day is impossible or is the last of the calendar. */
  lemma RowsFailIff(table: seq<Article>, c: Criteria)
    requires DaysWritten(c)
    ensures Rows(table, c).Err? <==>
            (c.from.Some? && Unusable(c.from.value)) || (c.to.Some? && Unusable(c.to.value))
  {
    BoundsFail(c.from);
    BoundsFail(c.to);
  }

  /** The day a row shows for the filtered column: the first ten printed characters. */
  function PrintedDay(field: DateField, a: Article): (day: string)
    requires Datable(field, a)
    ensures var w := Dates.AtMicros(if field.ByUpdated? then a.updatedAt else a.createdAt);
            w.Ok? && Dates.ValidWall(w.value) && day == Dates.Render(w.value)[..10]
  {
    var w := Dates.AtMicros(Column(field, a)).value;
    Dates.AtMicrosExact(Column(field, a));
    Dates.PrintedDay(w);
    Dates.Render(w)[..10]
  }

  /** The column holds a time of the calendar. */
  predicate Datable(field: DateField, a: Article) {
    Dates.AtMicros(Column(field, a)).Ok?
  }

  lemma RangeByDays(c: Criteria, from: Option<(int, int)>, to: Option<(int, int)>, a: Article)
    requires DaysWritten(c) && Bounds(c.from) == Ok(from) && Bounds(c.to) == Ok(to) && Datable(c.field, a)
    ensures InRange(c, Start(from), End(to))(a) <==>
            && c.matches(a)
            && (c.category.Some? ==> a.category == c.category.value)
            && (c.status.Some? ==> a.status == c.status.value)
            && (c.from.Some? ==> !Dates.Less(PrintedDay(c.field, a), c.from.value))
            && (c.to.Some? ==> !Dates.Less(c.to.value, PrintedDay(c.field, a)))
  {
    var w := Dates.AtMicros(Column(c.field, a)).value;
    Dates.AtMicrosExact(Column(c.field, a));
    if c.from.Some? {
      Dates.BoundsInPrint(c.from.value, w);
    }
    if c.to.Some? {
      Dates.BoundsInPrint(c.to.value, w);
    }
  }

  /** A row is listed exactly when it passes the plain filters and its printed day
      lies between the two given days, as strings, both included. */
  lemma ListedIffBetween(table: seq<Article>, c: Criteria, a: Article)
    requires DaysWritten(c) && Rows(table, c).Ok? && Datable(c.field, a)
    ensures a in Rows(table, c).value <==>
            && a in table && c.matches(a)
            && (c.category.Some? ==> a.category == c.category.value)
            && (c.status.Some? ==> a.status == c.status.value)
            && (c.from.Some? ==> !Dates.Less(PrintedDay(c.field, a), c.from.value))
            && (c.to.Some? ==> !Dates.Less(c.to.value, PrintedDay(c.field, a)))
  {
    var from, to := Bounds(c.from).value, Bounds(c.to).value;
    var p := InRange(c, Start(from), End(to));
    NewestByIsTotal(c.field);
    SortOrders(NewestBy(c.field), Filter(p, table));
    FilterIn(p, table, a);
    assert a in Rows(table, c).value <==> a in multiset(Filter(p, table));
    RangeByDays(c, from, to, a);
  }

  lemma NewestByUntied(field: DateField, rows: seq<Article>)
    requires DistinctIds(rows)
    ensures Untied(NewestBy(field), rows)
  {
  }

  /** The listing does not depend on how the rows are stored. */
  lemma RowsDetermined(
      table: seq<Article>, c: Criteria, from: Option<(int, int)>, to: Option<(int, int)>, out: seq<Article>)
    requires DistinctIds(table) && DaysWritten(c) && Bounds(c.from) == Ok(from) && Bounds(c.to) == Ok(to)
    requires OrderBy(NewestBy(c.field), Filter(InRange(c, Start(from), End(to)), table), out)
    ensures Rows(table, c) == Ok(out)
  {
    var rows := Filter(InRange(c, Start(from), End(to)), table);
    NewestByIsTotal(c.field);
    FilterKeepsDistinctIds(InRange(c, Start(from), End(to)), table);
    NewestByUntied(c.field, rows);
    SortDetermined(NewestBy(c.field), rows, out);
  }

  /** Of two listed rows the earlier has the later chosen date, and the larger id where
      the dates agree. */
  lemma RowsOrder(table: seq<Article>, c: Criteria, i: nat, j: nat)
    requires DistinctIds(table) && DaysWritten(c) && Rows(table, c).Ok? && i < j < |Rows(table, c).value|
    ensures var (a, b) := (Rows(table, c).value[i], Rows(table, c).value[j]);
            match c.field
            case ByUpdated => a.updatedAt > b.updatedAt || (a.updatedAt == b.updatedAt && a.id > b.id)
            case ByCreated => a.createdAt > b.createdAt || (a.createdAt == b.createdAt && a.id > b.id)
  {
    var p := InRange(c, Start(Bounds(c.from).value), End(Bounds(c.to).value));
    var rows := Rows(table, c).value;
    NewestByIsTotal(c.field);
    SortOrders(NewestBy(c.field), Filter(p, table));
    FilterKeepsDistinctIds(p, table);
    RepeatedId(Filter(p, table), rows, i, j);
    assert NewestBy(c.field)(rows[i], rows[j]);
  }
}
