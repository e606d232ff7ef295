/** Bookmark toggles running beside article edits, and a reader's bookmark list. */
module Bookmarks {
  import opened Outcomes
  import opened Sequences
  import opened Ordering
  import opened Paging
  import opened Articles
  import opened Payload
  import Posts

  /** A bookmark row; `articleId` references nothing the database checks. */
  datatype Bookmark = Bookmark(id: int, userId: int, articleId: int, createdAt: int)

  datatype World = World(posts: Posts.Table, marks: seq<Bookmark>, nextId: int)

  datatype Event = Toggle(userId: int, slug: string, now: int) | Post(event: Posts.Event)

  function FindPublished(rows: seq<Article>, slug: string): (found: Option<Article>)
    ensures found.Some? ==> found.value in rows && found.value.slug == slug && found.value.status == Published
    ensures found.None? ==> forall i :: 0 <= i < |rows| ==> !(rows[i].slug == slug && rows[i].status == Published)
  {
    if rows == [] then None
    else if rows[|rows| - 1].slug == slug && rows[|rows| - 1].status == Published then Some(rows[|rows| - 1])
    else FindPublished(rows[..|rows| - 1], slug)
  }

  function OfPair(userId: int, articleId: int): Bookmark -> bool {
    (m: Bookmark) => m.userId == userId && m.articleId == articleId
  }

  function FindMark(marks: seq<Bookmark>, userId: int, articleId: int): (found: Option<nat>)
    ensures found.Some? ==> found.value < |marks| && OfPair(userId, articleId)(marks[found.value])
    ensures found.None? ==> forall i :: 0 <= i < |marks| ==> !OfPair(userId, articleId)(marks[i])
  {
    if marks == [] then None
    else if OfPair(userId, articleId)(marks[|marks| - 1]) then Some(|marks| - 1)
    else FindMark(marks[..|marks| - 1], userId, articleId)
  }

  function Toggled(marks: seq<Bookmark>, nextId: int, userId: int, articleId: int, now: int): seq<Bookmark> {
    match FindMark(marks, userId, articleId)
    case Some(i) => marks[..i] + marks[i + 1..]
    case None => marks + [Bookmark(nextId, userId, articleId, now)]
  }

  class BookmarkTable {
    var marks: seq<Bookmark>
    var nextId: int

    constructor ()
      ensures marks == [] && nextId == 1
    {
      marks := [];
      nextId := 1;
    }

    /** Add or remove a bookmark; says whether the article is now bookmarked. */
    method Toggle(userId: int, articleId: int, now: int) returns (bookmarked: bool)
      modifies this
      ensures marks == Toggled(old(marks), old(nextId), userId, articleId, now)
      ensures nextId == if bookmarked then old(nextId) + 1 else old(nextId)
      ensures bookmarked <==> FindMark(old(marks), userId, articleId).None?
    {
      var existing := FindMark(marks, userId, articleId);
      if existing.Some? {
        var i := existing.value;
        marks := marks[..i] + marks[i + 1..];
        return false;
      }
      marks := marks + [Bookmark(nextId, userId, articleId, now)];
      nextId := nextId + 1;
      return true;
    }
  }

  // ---- Runs ------------------------------------------------------------------------

  /** The bookmark rows after an event: only a toggle of a published article moves them. */
  function MarksAfter(w: World, e: Event): seq<Bookmark> {
    if e.Toggle? && FindPublished(w.posts.rows, e.slug).Some? then
      Toggled(w.marks, w.nextId, e.userId, FindPublished(w.posts.rows, e.slug).value.id, e.now)
    else w.marks
  }

  /** Only a published article can be toggled; deleting an article leaves its bookmarks. */
  function Step(canon: Canon): (World, Event) -> World {
    (w: World, e: Event) =>
      match e
      case Post(event) => w.(posts := Posts.Step(canon, w.posts, event))
      case Toggle(userId, slug, now) =>
        match FindPublished(w.posts.rows, slug)
        case None => w
        case Some(a) =>
          w.(marks := Toggled(w.marks, w.nextId, userId, a.id, now),
             nextId := if FindMark(w.marks, userId, a.id).None? then w.nextId + 1 else w.nextId)
  }

  lemma StepMarks(canon: Canon)
    ensures forall w, e :: Step(canon)(w, e).marks == MarksAfter(w, e)
  {
  }

  function Run(step: (World, Event) -> World, w: World, events: seq<Event>): World {
    if events == [] then w
    else step(Run(step, w, events[..|events| - 1]), events[|events| - 1])
  }

  /** Does this event succeed in toggling this pair? */
  predicate TogglesPair(w: World, e: Event, userId: int, articleId: int) {
    && e.Toggle? && e.userId == userId
    && FindPublished(w.posts.rows, e.slug).Some?
    && FindPublished(w.posts.rows, e.slug).value.id == articleId
  }

  function SuccessfulToggles(
      step: (World, Event) -> World, w: World, events: seq<Event>, userId: int, articleId: int): nat
  {
    if events == [] then 0
    else
      var front := events[..|events| - 1];
      SuccessfulToggles(step, w, front, userId, articleId)
      + if TogglesPair(Run(step, w, front), events[|events| - 1], userId, articleId) then 1 else 0
  }

  function Copies(marks: seq<Bookmark>, userId: int, articleId: int): nat {
    |Filter(OfPair(userId, articleId), marks)|
  }

  lemma FilterOne<T>(p: T -> bool, x: T)
    ensures Filter(p, [x]) == if p(x) then [x] else []
  {
    assert [x][..0] == [];
  }

  lemma CopiesAppend(s: seq<Bookmark>, t: seq<Bookmark>, userId: int, articleId: int)
    ensures Copies(s + t, userId, articleId) == Copies(s, userId, articleId) + Copies(t, userId, articleId)
  {
    FilterAppend(OfPair(userId, articleId), s, t);
  }

  /** A toggle moves the pair it names by one row and no other pair. */
  lemma ToggleMovesPair(marks: seq<Bookmark>, nextId: int, u: int, a: int, now: int, userId: int, articleId: int)
    requires Copies(marks, u, a) <= 1
    ensures var after := Copies(Toggled(marks, nextId, u, a, now), userId, articleId);
            if userId == u && articleId == a then after == 1 - Copies(marks, u, a)
            else after == Copies(marks, userId, articleId)
  {
    var p := OfPair(userId, articleId);
    match FindMark(marks, u, a)
    case Some(i) =>
      var left, mid, right := marks[..i], [marks[i]], marks[i + 1..];
      assert marks == left + mid + right;
      CopiesAppend(left + mid, right, userId, articleId);
      CopiesAppend(left, mid, userId, articleId);
      CopiesAppend(left, right, userId, articleId);
      FilterOne(p, marks[i]);
    case None =>
      var m := Bookmark(nextId, u, a, now);
      CopiesAppend(marks, [m], userId, articleId);
      FilterOne(p, m);
      if userId == u && articleId == a {
        FilterNone(p, marks);
      }
  }

  /** The unique constraint on (user, article). */
  ghost predicate OnePerPair(marks: seq<Bookmark>) {
    forall u, a :: Copies(marks, u, a) <= 1
  }

  lemma StepCopies(w: World, e: Event, userId: int, articleId: int)
    requires OnePerPair(w.marks)
    ensures Copies(MarksAfter(w, e), userId, articleId) ==
            if TogglesPair(w, e, userId, articleId) then 1 - Copies(w.marks, userId, articleId)
            else Copies(w.marks, userId, articleId)
  {
    if e.Toggle? && FindPublished(w.posts.rows, e.slug).Some? {
      var a := FindPublished(w.posts.rows, e.slug).value;
      ToggleMovesPair(w.marks, w.nextId, e.userId, a.id, e.now, userId, articleId);
    }
  }

  lemma OddOrEven(bit: nat, k: nat)
    requires bit == k % 2
    ensures 1 - bit == (k + 1) % 2
  {
  }

  lemma {:induction false} RunOnePerPair(step: (World, Event) -> World, w: World, events: seq<Event>)
    requires OnePerPair(w.marks) && forall v, e :: step(v, e).marks == MarksAfter(v, e)
    ensures OnePerPair(Run(step, w, events).marks)
  {
    if events != [] {
      var front, e := events[..|events| - 1], events[|events| - 1];
      var before := Run(step, w, front);
      RunOnePerPair(step, w, front);
      forall u, a
        ensures Copies(MarksAfter(before, e), u, a) <= 1
      {
        StepCopies(before, e, u, a);
      }
    }
  }

  lemma {:induction false} RunParity(
      step: (World, Event) -> World, w: World, events: seq<Event>, userId: int, articleId: int)
    requires OnePerPair(w.marks) && forall v, e :: step(v, e).marks == MarksAfter(v, e)
    ensures Copies(Run(step, w, events).marks, userId, articleId)
            == (Copies(w.marks, userId, articleId) + SuccessfulToggles(step, w, events, userId, articleId)) % 2
  {
    if events != [] {
      var front, e := events[..|events| - 1], events[|events| - 1];
      var before := Run(step, w, front);
      RunOnePerPair(step, w, front);
      RunParity(step, w, front, userId, articleId);
      assert Run(step, w, events).marks == MarksAfter(before, e);
      StepCopies(before, e, userId, articleId);
      OddOrEven(Copies(before.marks, userId, articleId),
                Copies(w.marks, userId, articleId) + SuccessfulToggles(step, w, front, userId, articleId));
    }
  }

  /** In every run of toggles and article requests a pair has one row or none, and
      one exactly when the rows it started with and its successful toggles add up to
      an odd number; from an empty table, when it was toggled an odd number of times. */
  lemma ToggleParity(canon: Canon, w: World, events: seq<Event>, userId: int, articleId: int)
    requires OnePerPair(w.marks)
    ensures Copies(Run(Step(canon), w, events).marks, userId, articleId)
            == (Copies(w.marks, userId, articleId) + SuccessfulToggles(Step(canon), w, events, userId, articleId)) % 2
  {
    StepMarks(canon);
    RunParity(Step(canon), w, events, userId, articleId);
  }

  // ---- The reader's list --------------------------------------------------------------

  /** A bookmark with the article it points at, if that still exists. */
  datatype Entry = Entry(mark: Bookmark, article: Option<Article>)

  function OfUser(userId: int): Bookmark -> bool {
    (m: Bookmark) => m.userId == userId
  }

  function WithId(id: int): Article -> bool {
    (a: Article) => a.id == id
  }

  function Paired(m: Bookmark): Article -> Entry {
    (a: Article) => Entry(m, Some(a))
  }

  /** The joined rows of one bookmark. */
  function Joined(m: Bookmark, rows: seq<Article>): seq<Entry> {
    var matches := Filter(WithId(m.articleId), rows);
    if matches == [] then [Entry(m, None)] else Map(Paired(m), matches)
  }

  /** LEFT OUTER JOIN on the article id. */
  function OuterJoin(marks: seq<Bookmark>, rows: seq<Article>): seq<Entry> {
    if marks == [] then []
    else
      OuterJoin(marks[..|marks| - 1], rows) + Joined(marks[|marks| - 1], rows)
  }

  /** `created_at DESC, id DESC`. */
  predicate NewestMarkFirst(a: Entry, b: Entry) {
    a.mark.createdAt > b.mark.createdAt || (a.mark.createdAt == b.mark.createdAt && a.mark.id >= b.mark.id)
  }

  function UserList(w: World, userId: int): seq<Entry> {
    Sort(NewestMarkFirst, OuterJoin(Filter(OfUser(userId), w.marks), w.posts.rows))
  }

  function EntryOf(rows: seq<Article>): Bookmark -> Entry {
    (m: Bookmark) => Entry(m, Posts.FindId(rows, m.articleId))
  }

  lemma {:induction false} MatchesById(rows: seq<Article>, id: int)
    requires DistinctIds(rows)
    ensures Filter(WithId(id), rows) ==
            match Posts.FindId(rows, id) case Some(a) => [a] case None => []
  {
    if rows != [] {
      var n := |rows| - 1;
      MatchesById(rows[..n], id);
      if rows[n].id == id {
        FilterNone(WithId(id), rows[..n]);
      }
    }
  }

  lemma JoinOne(m: Bookmark, rows: seq<Article>)
    requires DistinctIds(rows)
    ensures Joined(m, rows) == [EntryOf(rows)(m)]
  {
    MatchesById(rows, m.articleId);
  }

  /** Primary keys make the outer join one entry per bookmark. */
  lemma {:induction false} JoinIsMap(marks: seq<Bookmark>, rows: seq<Article>)
    requires DistinctIds(rows)
    ensures OuterJoin(marks, rows) == Map(EntryOf(rows), marks)
  {
    if marks != [] {
      var n := |marks| - 1;
      var m := marks[n];
      JoinIsMap(marks[..n], rows);
      JoinOne(m, rows);
      assert OuterJoin(marks, rows) == OuterJoin(marks[..n], rows) + Joined(m, rows);
      assert Map(EntryOf(rows), marks) == Map(EntryOf(rows), marks[..n]) + [EntryOf(rows)(m)];
    }
  }

  lemma {:induction false} EntryCount(rows: seq<Article>, marks: seq<Bookmark>, m: Bookmark)
    ensures multiset(Map(EntryOf(rows), marks))[EntryOf(rows)(m)] == multiset(marks)[m]
  {
    if marks != [] {
      var n := |marks| - 1;
      EntryCount(rows, marks[..n], m);
      assert marks == marks[..n] + [marks[n]];
      assert Map(EntryOf(rows), marks) == Map(EntryOf(rows), marks[..n]) + [EntryOf(rows)(marks[n])];
    }
  }

  lemma NewestMarkFirstIsTotal()
    ensures TotalPreorder(NewestMarkFirst)
  {
  }

  /** Paging a reader's list ends exactly up to 1000 full pages, and then yields
      exactly one entry per bookmark row, newest first; past that it shows only the
      newest. */
  lemma PagingListsEveryBookmark(w: World, userId: int, perPage: Option<int>, steps: nat)
    requires Posts.WellFormed(w.posts)
    requires steps >= LastPage(UserList(w, userId), perPage)
    ensures |UserList(w, userId)| == |Filter(OfUser(userId), w.marks)|
    ensures EndsWithinReach(Walk(UserList(w, userId), perPage, steps), UserList(w, userId), perPage)
  {
    ListHoldsEveryBookmark(w, userId);
    WalkEndsIff(UserList(w, userId), perPage, steps);
  }

  /** The list behind the pages: one entry per bookmark row of the reader, newest
      first, lacking its article exactly when the article is gone. */
  lemma ListHoldsEveryBookmark(w: World, userId: int)
    requires Posts.WellFormed(w.posts)
    ensures var listing := UserList(w, userId);
            && |listing| == |Filter(OfUser(userId), w.marks)|
            && Ordered(NewestMarkFirst, listing)
            && (forall m :: multiset(listing)[EntryOf(w.posts.rows)(m)] ==
                            if m.userId == userId then multiset(w.marks)[m] else 0)
            && (forall e :: e in listing ==>
                  (e.article.None? <==> forall i :: 0 <= i < |w.posts.rows| ==> w.posts.rows[i].id != e.mark.articleId))
  {
    var mine := Filter(OfUser(userId), w.marks);
    var rows := w.posts.rows;
    var listing := UserList(w, userId);
    JoinIsMap(mine, rows);
    NewestMarkFirstIsTotal();
    SortOrders(NewestMarkFirst, Map(EntryOf(rows), mine));
    assert |multiset(listing)| == |multiset(Map(EntryOf(rows), mine))|;
    forall m
      ensures multiset(listing)[EntryOf(rows)(m)] == if m.userId == userId then multiset(w.marks)[m] else 0
    {
      EntryCount(rows, mine, m);
      FilterCount(OfUser(userId), w.marks, m);
    }
    forall e | e in listing
      ensures e.article.None? <==> forall i :: 0 <= i < |rows| ==> rows[i].id != e.mark.articleId
    {
      SameElements(listing, Map(EntryOf(rows), mine), e);
    }
  }

  /** What one toggle request does: nothing unless a published article has the slug;
      else it takes out one row of the pair if there is one, and appends a fresh row of
      the pair, in its own time, if there is none. */
  lemma ToggleIs(canon: Canon, w: World, e: Event)
    requires e.Toggle?
    ensures var after := Step(canon)(w, e);
            && after.posts == w.posts
            && ((forall a :: a in w.posts.rows ==> !(a.slug == e.slug && a.status == Published)) ==> after == w)
            && ((exists a :: a in w.posts.rows && a.slug == e.slug && a.status == Published) ==>
                  exists a :: a in w.posts.rows && a.slug == e.slug && a.status == Published
                    && ToggledFor(w, after, e.userId, a.id, e.now))
  {
    var found := FindPublished(w.posts.rows, e.slug);
    if found.Some? {
      var a := found.value;
      ToggledIs(w.marks, w.nextId, e.userId, a.id, e.now);
      assert ToggledFor(w, Step(canon)(w, e), e.userId, a.id, e.now);
    }
  }

  /** One row of the pair fewer, or one fresh row more. */
  ghost predicate ToggledFor(w: World, after: World, userId: int, articleId: int, now: int) {
    || (exists i :: 0 <= i < |w.marks| && w.marks[i].userId == userId && w.marks[i].articleId == articleId
          && after == w.(marks := w.marks[..i] + w.marks[i + 1..]))
    || ((forall i :: 0 <= i < |w.marks| ==> !(w.marks[i].userId == userId && w.marks[i].articleId == articleId))
        && after == w.(marks := w.marks + [Bookmark(w.nextId, userId, articleId, now)], nextId := w.nextId + 1))
  }

  lemma ToggledIs(marks: seq<Bookmark>, nextId: int, userId: int, articleId: int, now: int)
    ensures match FindMark(marks, userId, articleId)
            case Some(i) =>
              && i < |marks| && marks[i].userId == userId && marks[i].articleId == articleId
              && Toggled(marks, nextId, userId, articleId, now) == marks[..i] + marks[i + 1..]
            case None =>
              && (forall i :: 0 <= i < |marks| ==> !(marks[i].userId == userId && marks[i].articleId == articleId))
              && Toggled(marks, nextId, userId, articleId, now) == marks + [Bookmark(nextId, userId, articleId, now)]
  {
  }

  /** The article requests of a run, in order. */
  function PostEvents(events: seq<Event>): seq<Posts.Event> {
    if events == [] then []
    else
      var last := events[|events| - 1];
      PostEvents(events[..|events| - 1]) + if last.Post? then [last.event] else []
  }

  function PostStep(canon: Canon): (Posts.Table, Posts.Event) -> Posts.Table {
    (t: Posts.Table, e: Posts.Event) => Posts.Step(canon, t, e)
  }

  function Fold(
      next: (Posts.Table, Posts.Event) -> Posts.Table, t: Posts.Table, events: seq<Posts.Event>): Posts.Table
  {
    if events == [] then t else next(Fold(next, t, events[..|events| - 1]), events[|events| - 1])
  }

  lemma {:induction false} RunFolds(
      step: (World, Event) -> World, next: (Posts.Table, Posts.Event) -> Posts.Table, w: World, events: seq<Event>)
    requires forall v, e :: step(v, e).posts == if e.Post? then next(v.posts, e.event) else v.posts
    ensures Run(step, w, events).posts == Fold(next, w.posts, PostEvents(events))
  {
    if events != [] {
      var front, last := events[..|events| - 1], events[|events| - 1];
      RunFolds(step, next, w, front);
      if last.Post? {
        assert (PostEvents(front) + [last.event])[..|PostEvents(front)|] == PostEvents(front);
      } else {
        assert PostEvents(front) + [] == PostEvents(front);
      }
    }
  }

  lemma {:induction false} FoldIsRun(canon: Canon, t: Posts.Table, events: seq<Posts.Event>)
    ensures Fold(PostStep(canon), t, events) == Posts.Run(canon, t, events)
  {
    if events != [] {
      FoldIsRun(canon, t, events[..|events| - 1]);
    }
  }

  /** Toggles leave the articles alone: a run ends with what its article requests alone make of them. */
  lemma TogglesLeaveArticles(canon: Canon, w: World, events: seq<Event>)
    ensures Run(Step(canon), w, events).posts == Posts.Run(canon, w.posts, PostEvents(events))
  {
    StepPosts(canon);
    RunFolds(Step(canon), PostStep(canon), w, events);
    FoldIsRun(canon, w.posts, PostEvents(events));
  }

  lemma StepPosts(canon: Canon)
    ensures forall v, e :: Step(canon)(v, e).posts == if e.Post? then PostStep(canon)(v.posts, e.event) else v.posts
  {
  }

  /** The order and the articles of a reader's list. */
  lemma ListOrder(w: World, userId: int, i: nat, j: nat)
    requires Posts.WellFormed(w.posts) && i < j < |UserList(w, userId)|
    ensures var (a, b) := (UserList(w, userId)[i], UserList(w, userId)[j]);
            && a.mark.userId == userId && a.mark in w.marks
            && (a.article.Some? ==> a.article.value in w.posts.rows && a.article.value.id == a.mark.articleId)
            && (a.mark.createdAt > b.mark.createdAt
                || (a.mark.createdAt == b.mark.createdAt && a.mark.id >= b.mark.id))
  {
    var rows, mine := w.posts.rows, Filter(OfUser(userId), w.marks);
    var a := UserList(w, userId)[i];
    ListHoldsEveryBookmark(w, userId);
    assert NewestMarkFirst(a, UserList(w, userId)[j]);
    JoinIsMap(mine, rows);
    NewestMarkFirstIsTotal();
    SortOrders(NewestMarkFirst, Map(EntryOf(rows), mine));
    SameElements(UserList(w, userId), Map(EntryOf(rows), mine), a);
    var k :| 0 <= k < |mine| && EntryOf(rows)(mine[k]) == a;
    FilterIn(OfUser(userId), w.marks, mine[k]);
  }
}
