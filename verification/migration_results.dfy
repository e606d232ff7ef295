/** When the chain succeeds, what it makes of each article, and what re-running it does. */
module MigrationResults {
  import opened Outcomes
  import opened Text
  import opened Query
  import opened Units
  import opened Migrations
  import opened MigrationRuns
  import Articles

  // ---- What the files share ----------------------------------------------------------------------

  lemma FileTouchesTables(n: nat, db: Db)
    requires n < FILES
    ensures var after := File(n, db).0;
            && (n < 7 ==> after.users == db.users)
            && (n < 8 ==> after.bookmarks == db.bookmarks)
            && after.articles.Keys == db.articles.Keys
  {
  }

  lemma FileTouchesCoverFlags(n: nat, db: Db)
    requires n < FILES
    ensures var after := File(n, db).0.schema;
            && (n != 3 ==> after.hasCoverInstagram == db.schema.hasCoverInstagram)
            && ((after.hasCoverInstagram || after.hasCoverImage)
                == (db.schema.hasCoverInstagram || db.schema.hasCoverImage))
  {
  }

  lemma FileTouchesOtherFlags(n: nat, db: Db)
    requires n < FILES
    ensures var after := File(n, db).0.schema;
            && (n != 2 ==> after.prefixIndex == db.schema.prefixIndex)
            && (n != 4 ==> after.statusHasSaved == db.schema.statusHasSaved)
            && (n != 5 ==> after.categoryHasJob == db.schema.categoryHasJob && after.hasViews == db.schema.hasViews)
  {
    FileTouchesSmallFlags(n, db);
  }

  lemma FileTouchesSmallFlags(n: nat, db: Db)
    requires n < FILES
    ensures n != 2 ==> File(n, db).0.schema.prefixIndex == db.schema.prefixIndex
    ensures n != 4 ==> File(n, db).0.schema.statusHasSaved == db.schema.statusHasSaved
  {
  }

  /** Exactly when each file succeeds. */
  lemma FileSucceedsIff(n: nat, db: Db)
    requires n < FILES
    ensures File(n, db).1 ==
            (match n
             case 2 => db.schema.prefixIndex || NoDuplicatePrefixes(db.users)
             case 3 => !(db.schema.hasCoverInstagram && db.schema.hasCoverImage)
             case 4 => !db.schema.statusHasSaved || db.schema.hasViews
             case 6 => db.schema.hasCoverImage
             case 7 => ApiKeyHash in db.schema.userColumns
             case _ => true)
  {
  }

  /** What the files so far have kept of the starting database. */
  ghost predicate KeptSoFar(db: Db, n: nat, now: Db) {
    && (n <= 7 ==> now.users == db.users)
    && (n <= 8 ==> now.bookmarks == db.bookmarks)
    && (n <= 2 ==> now.schema.prefixIndex == db.schema.prefixIndex)
    && (n <= 3 ==> now.schema.hasCoverInstagram == db.schema.hasCoverInstagram)
    && (n <= 4 ==> now.schema.statusHasSaved == db.schema.statusHasSaved)
    && (n <= 5 ==> now.schema.categoryHasJob == db.schema.categoryHasJob && now.schema.hasViews == db.schema.hasViews)
    && ((now.schema.hasCoverInstagram || now.schema.hasCoverImage)
        == (db.schema.hasCoverInstagram || db.schema.hasCoverImage))
    && now.articles.Keys == db.articles.Keys
  }

  lemma {:induction false} MigrateKeeps(db: Db, n: nat)
    requires n <= FILES
    ensures Migrate(db, n).1 ==> KeptSoFar(db, n, Migrate(db, n).0)
  {
    if n > 0 && Migrate(db, n - 1).1 {
      MigrateKeeps(db, n - 1);
      FileTouchesTables(n - 1, Migrate(db, n - 1).0);
      FileTouchesCoverFlags(n - 1, Migrate(db, n - 1).0);
      FileTouchesOtherFlags(n - 1, Migrate(db, n - 1).0);
    }
  }

  // ---- When the chain succeeds ------------------------------------------------------------------------

  /** Whether the next file succeeds, in terms of the starting database. */
  lemma NextSucceedsIff(db: Db, n: nat)
    requires n < FILES && WellFormed(db) && Migrate(db, n).1
    ensures File(n, Migrate(db, n).0).1 ==
            (match n
             case 2 => db.schema.prefixIndex || NoDuplicatePrefixes(db.users)
             case 4 => !db.schema.statusHasSaved || db.schema.hasViews
             case 6 => db.schema.hasCoverInstagram || db.schema.hasCoverImage
             case _ => true)
  {
    var now := Migrate(db, n).0;
    MigrateKeeps(db, n);
    MigrateEndsDone(db, n);
    FileSucceedsIff(n, now);
    assert n == 3 ==> Done(0, now);
    assert n == 6 ==> Done(3, now);
    assert n == 7 ==> Done(2, now);
  }

  lemma {:induction false} MigrateSucceedsIff(db: Db, n: nat)
    requires n <= FILES && WellFormed(db)
    ensures Migrate(db, n).1 <==>
            && (n > 2 ==> db.schema.prefixIndex || NoDuplicatePrefixes(db.users))
            && (n > 4 ==> !db.schema.statusHasSaved || db.schema.hasViews)
            && (n > 6 ==> db.schema.hasCoverInstagram || db.schema.hasCoverImage)
  {
    if n > 0 {
      MigrateSucceedsIff(db, n - 1);
      if Migrate(db, n - 1).1 {
        NextSucceedsIff(db, n - 1);
      }
    }
  }

  /** The chain succeeds exactly on the databases that are not blocked; in
      particular 0003 never finds its target taken. */
  lemma ChainSucceedsIff(db: Db)
    requires WellFormed(db)
    ensures Migrate(db, FILES).1 <==>
            && (db.schema.prefixIndex || forall u, v :: u in db.users && v in db.users && u != v ==>
                  db.users[u].apiKeyPrefix.None? || db.users[u].apiKeyPrefix != db.users[v].apiKeyPrefix)
            && (db.schema.statusHasSaved ==> db.schema.hasViews)
            && (db.schema.hasCoverInstagram || db.schema.hasCoverImage)
  {
    MigrateSucceedsIff(db, FILES);
  }

  /** The schema a finished run leaves, in terms of the one it started with. */
  lemma SchemaAfterRun(db: Db)
    requires WellFormed(db) && Migrate(db, FILES).1
    ensures var (s, t) := (db.schema, Migrate(db, FILES).0.schema);
            && !t.hasCoverInstagram && t.hasCoverImage && !t.hasViews && !t.hasRelatedArticles
            && t.roleHasEditor && !t.statusHasSaved && !t.categoryHasJob && t.prefixIndex
            && t.tables == {} && t.enums == {} && t.authProviderDefault == "google"
            && PublishedViews !in t.indexes
            && {ApiKeyPrefix, ApiKeyHash, ApiKeyName, ApiKeyCreatedAt, ApiKeyLastUsedAt, ApiKeyRevokedAt}
               <= t.userColumns
            && t.userColumns !! {About, Occupation, Instagram, Facebook, Linkedin, Twitter, IsVerified,
                                 VerificationToken, VerificationTokenExpiresAt, VerificationSends,
                                 WelcomeEmailSentAt, SubscribedAt, IsActive, UnsubscribedAt, UnsubscribeToken}
  {
    FinishedRun(db);
    var after := Migrate(db, FILES).0;
    assert Done(1, after) && Done(2, after) && Done(3, after) && Done(4, after) && Done(5, after) && Done(6, after);
    FileEndsDone(7, Migrate(db, 7).0);
    AllTablesGone(after.schema.tables);
  }

  lemma AllTablesGone(tables: set<Relation>)
    requires tables !! RETIRED_TABLES
    ensures tables == {}
  {
    forall t | t in tables
      ensures t in RETIRED_TABLES
    {
      match t
      case DailyViewSnapshot =>
      case ViewSnapshot =>
      case Notification =>
      case Announcement =>
      case EmailLog =>
    }
  }

  // ---- What becomes of each article ----------------------------------------------------------------------

  /** What one file makes of a row, given the schema's flags. */
  function Move(n: nat, s: Schema, r: ArticleRow): ArticleRow {
    match n
    case 0 => if s.hasCoverInstagram then WithoutCover(Tagged(r)) else r
    case 3 => if s.hasCoverInstagram then Renamed(r) else r
    case 4 => if s.statusHasSaved then Rehomed(r) else r
    case 5 => if s.categoryHasJob then Rebucketed(r) else r
    case 6 => Cleared(r)
    case _ => r
  }

  /** A row after the first `n` files, by the flags of the starting schema. */
  function RowAfter(s: Schema, a: ArticleRow, n: nat): ArticleRow {
    if n == 0 then a else Move(n - 1, s, RowAfter(s, a, n - 1))
  }

  lemma FileMovesRow(n: nat, db: Db, i: int)
    requires n < FILES && i in db.articles && File(n, db).1
    ensures i in File(n, db).0.articles
    ensures File(n, db).0.articles[i] == Move(n, db.schema, db.articles[i])
  {
  }

  /** A file reads only flags that no earlier file has changed. */
  lemma MoveByStartingFlags(db: Db, n: nat, now: Db, r: ArticleRow)
    requires KeptSoFar(db, n, now)
    ensures Move(n, now.schema, r) == Move(n, db.schema, r)
  {
  }

  lemma {:induction false} RowsAfter(db: Db, n: nat, i: int)
    requires n <= FILES && Migrate(db, n).1 && i in db.articles
    ensures i in Migrate(db, n).0.articles && Migrate(db, n).0.articles[i] == RowAfter(db.schema, db.articles[i], n)
  {
    if n > 0 {
      var before := Migrate(db, n - 1).0;
      RowsAfter(db, n - 1, i);
      MigrateKeeps(db, n - 1);
      FileMovesRow(n - 1, before, i);
      MoveByStartingFlags(db, n - 1, before, before.articles[i]);
    }
  }

  /** What the whole chain makes of a row, stated by what it preserves. */
  ghost predicate MigratedRow(s: Schema, a: ArticleRow, b: ArticleRow) {
    var held := if a.instagram.Some? then a.instagram.value else [];
    var tags := if b.instagram.Some? then b.instagram.value else [];
    var cover := if s.hasCoverInstagram then a.coverInstagram else a.coverImage;
    && b.title == a.title && b.authorId == a.authorId
    // Old tags stay in front; at most one is appended.
    && held <= tags && |tags| <= |held| + 1
    && (!s.hasCoverInstagram ==> b.instagram == a.instagram)
    // A non-empty old cover is in the list, and nothing else was added.
    && (s.hasCoverInstagram && cover.Some? && cover.value != "" ==>
          exists i :: 0 <= i < |tags| && tags[i].Tag? && tags[i].url == cover)
    && (|tags| > |held| ==>
          && s.hasCoverInstagram && cover.Some? && cover.value != ""
          && tags[|held|] == Tag(cover, Some("Instagram"))
          && forall i :: 0 <= i < |held| && held[i].Tag? ==> held[i].url != cover)
    // The cover is the old value, unless that is an Instagram link.
    && b.coverInstagram.None?
    && b.coverImage == (if cover.Some? && Contains(Lower(cover.value), "instagram.com") then None else cover)
    // Statuses and categories are re-homed and nothing else.
    && b.status == (if a.status == Saved then Kept(Articles.Draft) else a.status)
    && b.category == (match a.category
                      case Job => Current(Articles.LatestJob)
                      case Exam => Current(Classify(a.title))
                      case Current(_) => a.category)
  }

  lemma TaggedGrows(a: ArticleRow)
    ensures var b := Tagged(a);
            && Entries(a) <= Entries(b) && |Entries(b)| <= |Entries(a)| + 1
            && (a.coverInstagram.Some? && a.coverInstagram.value != "" ==>
                  exists i :: 0 <= i < |Entries(b)| && Entries(b)[i].Tag? && Entries(b)[i].url == a.coverInstagram)
            && (|Entries(b)| > |Entries(a)| ==>
                  && a.coverInstagram.Some? && a.coverInstagram.value != ""
                  && Entries(b)[|Entries(a)|] == Tag(a.coverInstagram, Some("Instagram"))
                  && forall i :: 0 <= i < |Entries(a)| && Entries(a)[i].Tag? ==> Entries(a)[i].url != a.coverInstagram)
  {
    var b := Tagged(a);
    if b != a {
      assert Entries(b)[|Entries(a)|].Tag? && Entries(b)[|Entries(a)|].url == a.coverInstagram;
    } else if a.coverInstagram.Some? && a.coverInstagram.value != "" {
      assert HoldsUrl(Entries(a), a.coverInstagram.value);
    }
  }

  /** The chain on one row, written out. */
  function EndRow(s: Schema, a: ArticleRow): ArticleRow {
    var tagged := if s.hasCoverInstagram then Renamed(WithoutCover(Tagged(a))) else a;
    var rehomed := if s.statusHasSaved then Rehomed(tagged) else tagged;
    Cleared(if s.categoryHasJob then Rebucketed(rehomed) else rehomed)
  }

  lemma RowAfterEnds(s: Schema, a: ArticleRow)
    ensures RowAfter(s, a, FILES) == EndRow(s, a)
  {
    assert RowAfter(s, a, 1) == Move(0, s, a);
    assert RowAfter(s, a, 3) == RowAfter(s, a, 2) == RowAfter(s, a, 1);
    assert RowAfter(s, a, 5) == Move(4, s, RowAfter(s, a, 4));
    assert RowAfter(s, a, 7) == Move(6, s, RowAfter(s, a, 6));
    assert RowAfter(s, a, 9) == RowAfter(s, a, 8) == RowAfter(s, a, 7);
  }

  lemma EndRowIsMigrated(s: Schema, a: ArticleRow)
    requires RowFits(s, a)
    ensures MigratedRow(s, a, EndRow(s, a))
  {
    TaggedGrows(a);
    assert Entries(EndRow(s, a)) == if s.hasCoverInstagram then Entries(Tagged(a)) else Entries(a);
  }

  /** A finished run loses no article and makes of each exactly what is described above. */
  lemma ArticlesAfterRun(db: Db)
    requires WellFormed(db) && Migrate(db, FILES).1
    ensures var after := Migrate(db, FILES).0;
            && after.articles.Keys == db.articles.Keys
            && forall i :: i in db.articles ==> MigratedRow(db.schema, db.articles[i], after.articles[i])
  {
    MigrateKeeps(db, FILES);
    var after := Migrate(db, FILES).0;
    forall i | i in db.articles
      ensures MigratedRow(db.schema, db.articles[i], after.articles[i])
    {
      RowsAfter(db, FILES, i);
      assert RowFits(db.schema, db.articles[i]);
      RowAfterEnds(db.schema, db.articles[i]);
      EndRowIsMigrated(db.schema, db.articles[i]);
    }
  }

  /** Where an exam row ends up, over a whole run: in each category exactly when the
      title holds one of its keywords and none of a more specific category. */
  lemma ExamRowsAfterRun(db: Db, i: int)
    requires WellFormed(db) && Migrate(db, FILES).1 && i in db.articles && db.articles[i].category == Exam
    ensures i in Migrate(db, FILES).0.articles
    ensures var title := db.articles[i].title;
            var category := Migrate(db, FILES).0.articles[i].category;
            var key := Says(title, ["answerkey", "answer key", "answer-key"]);
            var card := Says(title, ["admitcard", "admit card", "admit-card", "hall ticket", "call letter"]);
            var result := Says(title, ["result", "merit list", "selection list", "scorecard", "score card",
                                       "pick up list", "cutoff", "cut off"]);
            var syllabus := Says(title, ["syllabus", "exam pattern", "time table", "schedule", "calendar"]);
            var admission := Says(title, ["admission", "counseling", "counselling", "entrance"]);
            && (category == Current(Articles.AnswerKey) <==> key)
            && (category == Current(Articles.AdmitCard) <==> card && !key)
            && (category == Current(Articles.Result) <==> result && !card && !key)
            && (category == Current(Articles.Syllabus) <==> syllabus && !result && !card && !key)
            && (category == Current(Articles.Admission) <==> admission && !syllabus && !result && !card && !key)
            && (category == Current(Articles.LatestJob) <==> !admission && !syllabus && !result && !card && !key)
  {
    ArticlesAfterRun(db);
    var after := Migrate(db, FILES).0;
    assert MigratedRow(db.schema, db.articles[i], after.articles[i]);
    ClassifyIs(db.articles[i].title);
  }

  /** One of the words occurs in the lower-cased title. */
  ghost predicate Says(title: string, words: seq<string>) {
    exists w, a, b :: w in words && Lower(title) == a + w + b
  }

  lemma ContainsIff(s: string, w: string)
    ensures Contains(s, w) <==> exists a, b :: s == a + w + b
  {
    if Contains(s, w) {
      var i :| 0 <= i <= |s| && OccursAt(s, w, i);
      assert s == s[..i] + w + s[i + |w|..];
    }
    if a, b :| s == a + w + b {
      assert OccursAt(s, w, |a|);
    }
  }

  lemma SaysMentions(title: string, words: seq<string>)
    ensures Says(title, words) <==> Mentions(title, words)
  {
    if Says(title, words) {
      var w, a, b :| w in words && Lower(title) == a + w + b;
      ContainsIff(Lower(title), w);
      var i :| 0 <= i < |words| && words[i] == w;
      assert Contains(Lower(title), words[i]);
    }
    if Mentions(title, words) {
      var i :| 0 <= i < |words| && Contains(Lower(title), words[i]);
      ContainsIff(Lower(title), words[i]);
    }
  }

  lemma ClassifyIs(title: string)
    ensures var key := Says(title, ["answerkey", "answer key", "answer-key"]);
            var card := Says(title, ["admitcard", "admit card", "admit-card", "hall ticket", "call letter"]);
            var result := Says(title, ["result", "merit list", "selection list", "scorecard", "score card",
                                       "pick up list", "cutoff", "cut off"]);
            var syllabus := Says(title, ["syllabus", "exam pattern", "time table", "schedule", "calendar"]);
            var admission := Says(title, ["admission", "counseling", "counselling", "entrance"]);
            Classify(title) ==
              if key then Articles.AnswerKey else if card then Articles.AdmitCard else if result then Articles.Result
              else if syllabus then Articles.Syllabus else if admission then Articles.Admission else Articles.LatestJob
  {
    SaysMentions(title, ANSWER_KEY_WORDS);
    SaysMentions(title, ADMIT_CARD_WORDS);
    SaysMentions(title, RESULT_WORDS);
    SaysMentions(title, SYLLABUS_WORDS);
    SaysMentions(title, ADMISSION_WORDS);
  }

  // ---- Running again ---------------------------------------------------------------------------------------

  /** On a migrated database the files up to 0006 do nothing. */
  lemma SecondRunReaches7(db: Db)
    requires WellFormed(db) && DoneBefore(7, db)
    ensures Migrate(db, 7) == (db, true)
  {
    DoneRunsThrough(db, 7);
  }

  lemma RemovalKeepsNoOrphans(db: Db)
    requires Done(8, db) && ApiKeyHash in db.schema.userColumns
    ensures Done(8, RemoveSubscriptionAccounts(db).0)
  {
    var after := RemoveSubscriptionAccounts(db).0;
    forall b | b in after.bookmarks
      ensures !Orphan(after, after.bookmarks[b])
    {
      assert !Orphan(db, db.bookmarks[b]);
      assert HoldsBookmark(db, db.bookmarks[b].userId);
    }
  }

  /** On a migrated database a run is 0007 and nothing else. */
  lemma RerunIsRemoval(db: Db)
    requires WellFormed(db) && DoneBefore(7, db) && Done(8, db)
    ensures Migrate(db, FILES) == (RemoveSubscriptionAccounts(db).0, true)
  {
    SecondRunReaches7(db);
    var removed := RemoveSubscriptionAccounts(db);
    assert Done(2, db);
    assert removed.1;
    assert Migrate(db, 8) == removed;
    RemovalKeepsNoOrphans(db);
    FileKeepsWellFormed(7, db);
    DoneIsNoop(8, removed.0);
  }

  lemma FinishedRun(db: Db)
    requires WellFormed(db) && Migrate(db, FILES).1
    ensures var after := Migrate(db, FILES).0;
            WellFormed(after) && DoneBefore(7, after) && Done(8, after)
  {
    MigrateWellFormed(db, FILES);
    MigrateEndsDone(db, FILES);
    FileEndsDone(8, Migrate(db, 8).0);
  }

  /** A user the first run has to spare and the second run deletes: otherwise
      deletable, holding bookmarks, every one of them to a missing article. */
  predicate Stranded(db: Db, u: int) {
    && Inert(db, u) && HoldsBookmark(db, u)
    && forall b :: b in db.bookmarks && db.bookmarks[b].userId == u ==> db.bookmarks[b].articleId !in db.articles
  }

  ghost predicate Deletable(db: Db, u: int) {
    Inert(db, u) && !HoldsBookmark(db, u)
  }

  /** Authorship is all 0007 reads from the articles, and no file changes it. */
  lemma {:induction false} AuthorshipKept(db: Db, n: nat, u: int)
    requires n <= FILES && Migrate(db, n).1
    ensures Authored(Migrate(db, n).0, u) <==> Authored(db, u)
  {
    var now := Migrate(db, n).0;
    MigrateKeeps(db, n);
    forall i | i in db.articles
      ensures now.articles[i].authorId == db.articles[i].authorId
    {
      RowsAfter(db, n, i);
      AuthorInRow(db.schema, db.articles[i], n);
    }
    if Authored(db, u) {
      var i :| i in db.articles && db.articles[i].authorId == Some(IdText(u));
      assert now.articles[i].authorId == Some(IdText(u));
    }
  }

  lemma {:induction false} AuthorInRow(s: Schema, a: ArticleRow, n: nat)
    ensures RowAfter(s, a, n).authorId == a.authorId
  {
    if n > 0 {
      AuthorInRow(s, a, n - 1);
    }
  }

  /** The users and bookmarks a finished run leaves, by the starting database. */
  lemma AfterFirstRun(db: Db)
    requires WellFormed(db) && Migrate(db, FILES).1
    ensures var after := Migrate(db, FILES).0;
            && (forall u :: u in after.users <==> u in db.users && !Deletable(db, u))
            && (forall u :: u in after.users ==> after.users[u] == db.users[u].(apiKey := None))
            && (forall b :: b in after.bookmarks <==>
                  && b in db.bookmarks && db.bookmarks[b].userId in after.users
                  && db.bookmarks[b].articleId in db.articles)
            && (forall b :: b in after.bookmarks ==> after.bookmarks[b] == db.bookmarks[b])
  {
    var d7, d8 := Migrate(db, 7).0, Migrate(db, 8).0;
    assert Migrate(db, 8).1 && Migrate(db, 7).1;
    MigrateKeeps(db, 7);
    MigrateKeeps(db, 8);
    forall u
      ensures u in db.users ==> (Inert(d7, u) <==> Inert(db, u)) && (HoldsBookmark(d7, u) <==> HoldsBookmark(db, u))
    {
      AuthorshipKept(db, 7, u);
    }
    assert d8 == RemoveSubscriptionAccounts(d7).0;
    assert forall u :: u in d8.users <==> u in db.users && !Deletable(db, u);
  }

  /** The second run deletes exactly the stranded users. */
  lemma SecondRunDeletes(db: Db, u: int)
    requires WellFormed(db) && Migrate(db, FILES).1
    ensures var once := Migrate(db, FILES).0;
            u in once.users && Deletable(once, u) <==> Stranded(db, u)
  {
    var once := Migrate(db, FILES).0;
    AfterFirstRun(db);
    AuthorshipKept(db, FILES, u);
    MigrateKeeps(db, FILES);
    if Stranded(db, u) {
      assert forall b :: b in once.bookmarks ==> once.bookmarks[b].userId != u;
    }
    if u in once.users && Deletable(once, u) {
      assert Inert(db, u);
      forall b | b in db.bookmarks && db.bookmarks[b].userId == u
        ensures db.bookmarks[b].articleId !in db.articles
      {
        assert db.bookmarks[b].articleId in db.articles ==> b in once.bookmarks;
      }
    }
  }

  /** A newsletter account that 0007 may delete, its conditions written out: provider,
      Google id, login, key, role, and no article whose author id reads as the user's id. */
  ghost predicate Newsletter(db: Db, u: int) {
    && u in db.users
    && db.users[u].authProvider == "subscription" && db.users[u].googleId == None
    && db.users[u].lastLoginAt == None && db.users[u].apiKeyHash == None && db.users[u].role == PlainUser
    && forall i :: i in db.articles && db.articles[i].authorId.Some? ==> !ReadsAs(db.articles[i].authorId.value, u)
  }

  lemma IdTextReads(id: int, text: string)
    ensures ReadsAs(text, id) <==> text == IdText(id)
  {
    if id < 0 {
      DecimalReads(-id);
      assert ("-" + Decimal(-id))[1..] == Decimal(-id);
      if ReadsAs(text, id) {
        ReadsDecimal(text[1..]);
        assert text == [text[0]] + text[1..];
      }
    } else {
      DecimalReads(id);
      if ReadsAs(text, id) {
        ReadsDecimal(text);
      }
    }
  }

  lemma NewsletterIsInert(db: Db, u: int)
    ensures Newsletter(db, u) <==> Inert(db, u)
  {
    if u in db.users {
      forall i | i in db.articles && db.articles[i].authorId.Some?
        ensures ReadsAs(db.articles[i].authorId.value, u) <==> db.articles[i].authorId == Some(IdText(u))
      {
        IdTextReads(u, db.articles[i].authorId.value);
      }
      if Authored(db, u) {
        var i :| i in db.articles && db.articles[i].authorId == Some(IdText(u));
        IdTextReads(u, IdText(u));
      }
    }
  }

  /** A finished run deletes exactly the newsletter accounts without a bookmark, clears
      every plaintext key and changes nothing else of a user; a bookmark stays exactly when
      its user and its article do. */
  lemma UsersAfterRun(db: Db, u: int, b: int)
    requires WellFormed(db) && Migrate(db, FILES).1
    ensures var after := Migrate(db, FILES).0;
            && (u in after.users <==>
                  && u in db.users
                  && !(Newsletter(db, u) && forall m :: m in db.bookmarks ==> db.bookmarks[m].userId != u))
            && (u in after.users ==> after.users[u] == db.users[u].(apiKey := None))
            && (b in after.bookmarks <==>
                  && b in db.bookmarks && db.bookmarks[b].articleId in db.articles
                  && db.bookmarks[b].userId in db.users)
            && (b in after.bookmarks ==> after.bookmarks[b] == db.bookmarks[b])
  {
    AfterFirstRun(db);
    NewsletterIsInert(db, u);
    if b in db.bookmarks {
      assert HoldsBookmark(db, db.bookmarks[b].userId);
    }
  }

  /** The next run deletes exactly the newsletter accounts that held bookmarks, every one of
      them to a missing article; it is a no-op exactly when there was none. */
  lemma NextRunDeletes(db: Db)
    requires WellFormed(db) && Migrate(db, FILES).1
    ensures var once := Migrate(db, FILES).0;
            var twice := Migrate(once, FILES).0;
            && (forall u :: u in once.users && u !in twice.users <==>
                  && Newsletter(db, u) && (exists m :: m in db.bookmarks && db.bookmarks[m].userId == u)
                  && forall m :: m in db.bookmarks && db.bookmarks[m].userId == u ==>
                       db.bookmarks[m].articleId !in db.articles)
            && (twice == once <==> forall u :: u in once.users ==> u in twice.users)
  {
    RerunIsNoopIff(db);
    AfterFirstRun(db);
    forall u
      ensures Newsletter(db, u) <==> Inert(db, u)
    {
      NewsletterIsInert(db, u);
    }
  }

  /** Re-running the directory is a no-op exactly when no user was stranded. Either
      way it succeeds, changes no article, and from the second run on nothing changes. */
  lemma RerunIsNoopIff(db: Db)
    requires WellFormed(db) && Migrate(db, FILES).1
    ensures var once := Migrate(db, FILES).0;
            var twice := Migrate(once, FILES);
            && twice.1
            && (twice.0 == once <==> forall u :: u in db.users ==> !Stranded(db, u))
            && twice.0.articles == once.articles && twice.0.bookmarks == once.bookmarks
            && (forall u :: u in twice.0.users <==> u in once.users && !Stranded(db, u))
            && Migrate(twice.0, FILES) == twice
  {
    var once := Migrate(db, FILES).0;
    var twice := RemoveSubscriptionAccounts(once).0;
    FinishedRun(db);
    RerunIsRemoval(once);
    forall u
      ensures u in once.users && Deletable(once, u) <==> Stranded(db, u)
    {
      SecondRunDeletes(db, u);
    }
    StrandedStay(db);
    FileKeepsWellFormed(7, once);
    RemovalKeepsDone(once);
    RemovalKeepsNoOrphans(once);
    assert Done(2, once);
    FileEndsDone(7, once);
    RerunIsRemoval(twice);
    DoneIsNoop(7, twice);
    RemovalFixes(once);
  }

  /** On every database, whether its first run finishes or fails, the third run
      repeats the second; a run that failed already repeats itself the second time. */
  lemma ThirdRunIsNoop(db: Db)
    requires WellFormed(db)
    ensures var once := Migrate(db, FILES);
            var twice := Migrate(once.0, FILES);
            && Migrate(twice.0, FILES) == twice
            && (!once.1 ==> twice == once)
  {
    if Migrate(db, FILES).1 {
      RerunIsNoopIff(db);
    } else {
      LastFileNeverFails(db);
      ResumeIsRestart(db, 8);
    }
  }

  /** A database on which the second run deletes a user: a newsletter account whose
      one bookmark points at no article. */
  function StrandedExample(): Db {
    Db(Schema(false, true, false, false, false, false, false, {}, false, {}, {}, {}, "subscription"),
       map[],
       map[7 := UserRow("subscription", None, None, PlainUser, None, None, None)],
       map[1 := Bookmark(7, 99)])
  }

  lemma RerunCanDelete()
    ensures var db := StrandedExample();
            && WellFormed(db) && Migrate(db, FILES).1
            && Migrate(Migrate(db, FILES).0, FILES).0 != Migrate(db, FILES).0
  {
    var db := StrandedExample();
    ChainSucceedsIff(db);
    RerunIsNoopIff(db);
    assert db.bookmarks[1].userId == 7;
    assert HoldsBookmark(db, 7);
    assert Stranded(db, 7);
  }

  /** An authored article protects its author only: account 7 is deleted beside an article of user 1. */
  lemma AuthoredByAnother()
    ensures var db := Db(Schema(false, true, false, false, false, false, false, {}, false, {}, {}, {}, "subscription"),
                         map[3 := ArticleRow("a", Some("1"), Kept(Articles.Draft), Current(Articles.Blog),
                                             None, None, None)],
                         map[7 := UserRow("subscription", None, None, PlainUser, None, None, None)], map[]);
            WellFormed(db) && Migrate(db, FILES).1 && 7 !in Migrate(db, FILES).0.users
  {
    var row := ArticleRow("a", Some("1"), Kept(Articles.Draft), Current(Articles.Blog), None, None, None);
    var db := Db(Schema(false, true, false, false, false, false, false, {}, false, {}, {}, {}, "subscription"),
                 map[3 := row], map[7 := UserRow("subscription", None, None, PlainUser, None, None, None)], map[]);
    ChainSucceedsIff(db);
    assert !ReadsAs("1", 7) by {
      assert "1"[..0] == "";
    }
    UsersAfterRun(db, 7, 0);
  }

  lemma StrandedStay(db: Db)
    requires WellFormed(db) && Migrate(db, FILES).1
    ensures forall u :: u in db.users && Stranded(db, u) ==> u in Migrate(db, FILES).0.users
  {
    AfterFirstRun(db);
  }

  lemma RemovalFixes(db: Db)
    requires WellFormed(db) && ApiKeyHash in db.schema.userColumns && db.schema.authProviderDefault == "google"
    ensures RemoveSubscriptionAccounts(db).0 == db <==> forall u :: u in db.users ==> !Deletable(db, u)
  {
    var after := RemoveSubscriptionAccounts(db).0;
    if forall u :: u in db.users ==> !Deletable(db, u) {
      assert after.users == db.users;
    } else {
      var u :| u in db.users && Deletable(db, u);
      assert u !in after.users;
    }
  }

  /** Wherever the first attempt stops, restarting gives the article rows of one uninterrupted run. */
  lemma ResumeKeepsArticles(db: Db, n: nat)
    requires n <= FILES && WellFormed(db)
    ensures Migrate(Migrate(db, n).0, FILES).0.articles == Migrate(db, FILES).0.articles
  {
    if n <= 8 {
      ResumeIsRestart(db, n);
    } else if Migrate(db, FILES).1 {
      RerunIsNoopIff(db);
    } else {
      LastFileNeverFails(db);
      ResumeIsRestart(db, 8);
    }
  }

  lemma LastFileNeverFails(db: Db)
    requires !Migrate(db, FILES).1
    ensures Migrate(db, 8) == Migrate(db, FILES)
  {
  }
}
