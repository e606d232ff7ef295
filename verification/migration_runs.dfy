/** Re-running, resuming and finishing the migration chain. */
module MigrationRuns {
  import opened Outcomes
  import opened Migrations

  // ---- What each file leaves behind ------------------------------------------------------------

  /** Every row of the table is already what `f` makes of it. */
  ghost predicate Settled(f: ArticleRow -> ArticleRow, articles: map<int, ArticleRow>) {
    forall i :: i in articles ==> f(articles[i]) == articles[i]
  }

  /** The state in which a file has nothing left to do. */
  ghost predicate Done(n: nat, db: Db)
    requires n < FILES
  {
    var s := db.schema;
    match n
    case 0 => s.hasCoverInstagram ==> !s.hasCoverImage && Settled(Tagged, db.articles)
    case 1 => s.roleHasEditor
    case 2 => KEY_COLUMNS <= s.userColumns && s.prefixIndex
    case 3 => !s.hasCoverInstagram
    case 4 => !s.statusHasSaved
    case 5 =>
      && !s.categoryHasJob && PublishedViews !in s.indexes && !s.hasViews && !s.hasRelatedArticles
      && s.userColumns !! RETIRED_COLUMNS && s.tables !! RETIRED_TABLES && s.enums == {}
    case 6 => s.hasCoverImage && Settled(Cleared, db.articles)
    case 7 =>
      && ApiKeyHash in s.userColumns && s.authProviderDefault == "google"
      && forall u :: u in db.users ==> !Inert(db, u) || HoldsBookmark(db, u)
    case _ =>
      && (forall u :: u in db.users ==> db.users[u].apiKey.None?)
      && (forall b :: b in db.bookmarks ==> !Orphan(db, db.bookmarks[b]))
  }

  lemma SettledFixes(f: ArticleRow -> ArticleRow, articles: map<int, ArticleRow>)
    ensures Settled(f, articles) <==> Each(f, articles) == articles
  {
    if Each(f, articles) == articles {
      forall i | i in articles
        ensures f(articles[i]) == articles[i]
      {
        assert Each(f, articles)[i] == f(articles[i]);
      }
    }
    if Settled(f, articles) {
      var r := Each(f, articles);
      assert forall i :: i in articles ==> r[i] == articles[i];
      assert r == articles;
    }
  }

  /** A file that has nothing left to do succeeds and changes nothing. */
  lemma DoneIsNoop(n: nat, db: Db)
    requires n < FILES && WellFormed(db) && Done(n, db)
    ensures File(n, db) == (db, true)
  {
    match n
    case 0 =>
      SettledFixes(Tagged, db.articles);
      SettledFixes(WithoutCover, db.articles);
    case 1 =>
    case 2 => assert db.schema.userColumns + KEY_COLUMNS == db.schema.userColumns;
    case 3 =>
    case 4 =>
    case 5 => AlignedIsNoop(db);
    case 6 => SettledFixes(Cleared, db.articles);
    case 7 => assert RemoveSubscriptionAccounts(db).0.users == db.users;
    case _ => SecretsClearedIsNoop(db);
  }

  lemma SecretsClearedIsNoop(db: Db)
    requires Done(8, db)
    ensures ClearSecretsAndOrphans(db) == (db, true)
  {
    forall u | u in db.users
      ensures db.users[u].(apiKey := None) == db.users[u]
    {
      assert db.users[u].apiKey == None;
    }
    var cleared := db.(users := map u | u in db.users :: db.users[u].(apiKey := None));
    assert cleared.users == db.users;
    assert cleared == db;
    forall b | b in db.bookmarks
      ensures !Orphan(cleared, db.bookmarks[b])
    {
    }
    var kept := map b | b in db.bookmarks && !Orphan(cleared, db.bookmarks[b]) :: db.bookmarks[b];
    assert kept == db.bookmarks;
  }

  lemma AlignedIsNoop(db: Db)
    requires Done(5, db)
    ensures AlignSchema(db) == (db, true)
  {
    var s := db.schema;
    assert s.indexes - {PublishedViews} == s.indexes;
    assert s.userColumns - RETIRED_COLUMNS == s.userColumns;
    assert s.tables - RETIRED_TABLES == s.tables;
    assert s.enums - {EmailMode, EmailLogStatus} == s.enums;
  }

  lemma EnumsGone(s: set<EnumType>)
    ensures s - {EmailMode, EmailLogStatus} == {}
  {
    forall e | e in s
      ensures e in {EmailMode, EmailLogStatus}
    {
      match e
      case EmailMode =>
      case EmailLogStatus =>
    }
  }

  lemma TaggedTwice(a: ArticleRow)
    ensures Tagged(WithoutCover(Tagged(a))) == WithoutCover(Tagged(a))
  {
    var b := Tagged(a);
    if b != a {
      var last := |Entries(b)| - 1;
      assert Entries(b)[last].Tag? && Entries(b)[last].url == b.coverInstagram;
      assert HoldsUrl(Entries(b), b.coverInstagram.value);
    }
    assert Entries(WithoutCover(b)) == Entries(b);
  }

  lemma TagsEndDone(db: Db)
    ensures Done(0, PreserveInstagramTags(db).0)
  {
    if db.schema.hasCoverInstagram {
      var after := PreserveInstagramTags(db).0.articles;
      forall i | i in after
        ensures Tagged(after[i]) == after[i]
      {
        TaggedTwice(db.articles[i]);
      }
    }
  }

  lemma RemovalKeepsInert(db: Db)
    requires ApiKeyHash in db.schema.userColumns
    ensures var after := RemoveSubscriptionAccounts(db).0;
            forall u :: u in after.users ==>
              (Inert(after, u) <==> Inert(db, u)) && (HoldsBookmark(after, u) <==> HoldsBookmark(db, u))
  {
    var after := RemoveSubscriptionAccounts(db).0;
    forall u | u in after.users
      ensures Authored(after, u) <==> Authored(db, u)
      ensures HoldsBookmark(after, u) <==> HoldsBookmark(db, u)
    {
    }
  }

  /** A successful file leaves itself nothing to do. */
  lemma FileEndsDone(n: nat, db: Db)
    requires n < FILES && File(n, db).1
    ensures Done(n, File(n, db).0)
  {
    match n
    case 0 => TagsEndDone(db);
    case 1 =>
    case 2 =>
    case 3 =>
    case 4 =>
    case 5 => EnumsGone(db.schema.enums);
    case 6 => assert forall i :: i in db.articles ==> Cleared(Cleared(db.articles[i])) == Cleared(db.articles[i]);
    case 7 => RemovalKeepsInert(db);
    case _ =>
  }

  lemma FewerUsersFit(s: Schema, users: map<int, UserRow>, fewer: map<int, UserRow>)
    requires UsersFit(s, users)
    requires forall u :: u in fewer ==>
               && u in users && fewer[u].apiKeyPrefix == users[u].apiKeyPrefix
               && fewer[u].apiKeyHash == users[u].apiKeyHash
    ensures UsersFit(s, fewer)
  {
  }

  lemma TagsFit(db: Db)
    requires WellFormed(db)
    ensures WellFormed(PreserveInstagramTags(db).0)
  {
  }

  lemma KeyColumnsFit(db: Db)
    requires WellFormed(db)
    ensures WellFormed(AddHashedApiKeyColumns(db).0)
  {
  }

  lemma RenameFits(db: Db)
    requires WellFormed(db)
    ensures WellFormed(RenameCoverImageUrl(db).0)
  {
  }

  lemma StatusFits(db: Db)
    requires WellFormed(db)
    ensures WellFormed(RemoveSavedStatus(db).0)
  {
  }

  lemma AlignedFits(db: Db)
    requires WellFormed(db)
    ensures WellFormed(AlignSchema(db).0)
  {
    assert ApiKeyPrefix !in RETIRED_COLUMNS && ApiKeyHash !in RETIRED_COLUMNS;
  }

  lemma CoversFit(db: Db)
    requires WellFormed(db)
    ensures WellFormed(ClearNonImageCovers(db).0)
  {
  }

  lemma RemovalFits(db: Db)
    requires WellFormed(db)
    ensures WellFormed(RemoveSubscriptionAccounts(db).0)
  {
    FewerUsersFit(db.schema, db.users, RemoveSubscriptionAccounts(db).0.users);
  }

  lemma SecretsFit(db: Db)
    requires WellFormed(db)
    ensures WellFormed(ClearSecretsAndOrphans(db).0)
  {
    FewerUsersFit(db.schema, db.users, ClearSecretsAndOrphans(db).0.users);
  }

  lemma FileKeepsWellFormed(n: nat, db: Db)
    requires n < FILES && WellFormed(db)
    ensures WellFormed(File(n, db).0)
  {
    match n
    case 0 => TagsFit(db);
    case 1 =>
    case 2 => KeyColumnsFit(db);
    case 3 => RenameFits(db);
    case 4 => StatusFits(db);
    case 5 => AlignedFits(db);
    case 6 => CoversFit(db);
    case 7 => RemovalFits(db);
    case _ => SecretsFit(db);
  }

  // ---- Later files leave earlier files nothing to do ----------------------------------------------

  /** The first `n` files, up to 0006, have nothing left to do. */
  ghost predicate DoneBefore(n: nat, db: Db)
    requires n <= 7
  {
    && (n > 0 ==> Done(0, db)) && (n > 1 ==> Done(1, db)) && (n > 2 ==> Done(2, db)) && (n > 3 ==> Done(3, db))
    && (n > 4 ==> Done(4, db)) && (n > 5 ==> Done(5, db)) && (n > 6 ==> Done(6, db))
  }

  /** How many of the first `n` files come before 0007. */
  function Early(n: nat): nat {
    if n < 7 then n else 7
  }

  lemma RoleKeepsDone(db: Db)
    requires DoneBefore(1, db)
    ensures DoneBefore(1, AddEditorRole(db).0)
  {
  }

  /** Adding the key columns touches nothing else. */
  lemma KeyColumnsTouch(db: Db)
    ensures var after := AddHashedApiKeyColumns(db).0;
            && after.articles == db.articles && after.users == db.users && after.bookmarks == db.bookmarks
            && after.schema == db.schema.(userColumns := db.schema.userColumns + KEY_COLUMNS,
                                          prefixIndex := after.schema.prefixIndex)
  {
  }

  lemma TagsAndRoleIgnoreKeyColumns(db: Db, after: Db)
    requires DoneBefore(2, db) && after.articles == db.articles
    requires after.schema ==
             db.schema.(userColumns := after.schema.userColumns, prefixIndex := after.schema.prefixIndex)
    ensures DoneBefore(2, after)
  {
  }

  lemma KeyColumnsKeepDone(db: Db)
    requires DoneBefore(2, db)
    ensures DoneBefore(2, AddHashedApiKeyColumns(db).0)
  {
    KeyColumnsTouch(db);
    TagsAndRoleIgnoreKeyColumns(db, AddHashedApiKeyColumns(db).0);
  }

  lemma RenameKeepsDone(db: Db)
    requires DoneBefore(3, db)
    ensures DoneBefore(3, RenameCoverImageUrl(db).0)
  {
  }

  lemma StatusKeepsDone(db: Db)
    requires DoneBefore(4, db)
    ensures DoneBefore(4, RemoveSavedStatus(db).0)
  {
  }

  lemma AlignKeepsDone(db: Db)
    requires DoneBefore(5, db)
    ensures DoneBefore(5, AlignSchema(db).0)
  {
  }

  lemma CoversKeepDone(db: Db)
    requires DoneBefore(6, db)
    ensures DoneBefore(6, ClearNonImageCovers(db).0)
  {
  }

  lemma RemovalKeepsDone(db: Db)
    requires DoneBefore(7, db)
    ensures DoneBefore(7, RemoveSubscriptionAccounts(db).0)
  {
  }

  lemma SecretsKeepDone(db: Db)
    requires DoneBefore(7, db)
    ensures DoneBefore(7, ClearSecretsAndOrphans(db).0)
  {
  }

  lemma FileKeepsDone(n: nat, db: Db)
    requires n < FILES && DoneBefore(Early(n), db)
    ensures DoneBefore(Early(n), File(n, db).0)
  {
    match n
    case 0 =>
    case 1 => RoleKeepsDone(db);
    case 2 => KeyColumnsKeepDone(db);
    case 3 => RenameKeepsDone(db);
    case 4 => StatusKeepsDone(db);
    case 5 => AlignKeepsDone(db);
    case 6 => CoversKeepDone(db);
    case 7 => RemovalKeepsDone(db);
    case _ => SecretsKeepDone(db);
  }

  // ---- Resuming after a stop ------------------------------------------------------------------------

  lemma {:induction false} MigrateWellFormed(db: Db, n: nat)
    requires n <= FILES && WellFormed(db)
    ensures WellFormed(Migrate(db, n).0)
  {
    if n > 0 {
      MigrateWellFormed(db, n - 1);
      if Migrate(db, n - 1).1 {
        FileKeepsWellFormed(n - 1, Migrate(db, n - 1).0);
      }
    }
  }

  lemma DoneAt(n: nat, db: Db)
    requires n < 7 && Done(n, db) && DoneBefore(n, db)
    ensures DoneBefore(n + 1, db)
  {
  }

  lemma {:induction false} MigrateEndsDone(db: Db, n: nat)
    requires n <= FILES && WellFormed(db) && Migrate(db, n).1
    ensures DoneBefore(Early(n), Migrate(db, n).0)
  {
    if n > 0 {
      var before := Migrate(db, n - 1).0;
      MigrateEndsDone(db, n - 1);
      FileKeepsDone(n - 1, before);
      if n - 1 < 7 {
        FileEndsDone(n - 1, before);
        DoneAt(n - 1, File(n - 1, before).0);
      }
    }
  }

  /** Files with nothing left to do pass over the database without a trace. */
  lemma {:induction false} DoneRunsThrough(db: Db, n: nat)
    requires n <= 7 && WellFormed(db) && DoneBefore(n, db)
    ensures Migrate(db, n) == (db, true)
  {
    if n > 0 {
      DoneRunsThrough(db, n - 1);
      DoneIsNoop(n - 1, db);
    }
  }

  /** A file that failed fails again, on the same database, leaving it as it is. */
  lemma FailsAgain(n: nat, db: Db)
    requires n < FILES && !File(n, db).1
    ensures File(n, File(n, db).0) == (File(n, db).0, false)
  {
    if n == 2 {
      assert db.schema.userColumns + KEY_COLUMNS + KEY_COLUMNS == db.schema.userColumns + KEY_COLUMNS;
    }
  }

  /** Running the first `n` files over their own result changes nothing, for every
      `n` short of the last file, and whether or not one of them failed. */
  lemma {:induction false} PrefixIdempotent(db: Db, n: nat)
    requires n <= 8 && WellFormed(db)
    ensures Migrate(Migrate(db, n).0, n) == Migrate(db, n)
  {
    if n > 0 {
      PrefixIdempotent(db, n - 1);
      var before := Migrate(db, n - 1);
      if before.1 {
        var after := File(n - 1, before.0);
        MigrateWellFormed(db, n);
        MigrateEndsDone(db, n - 1);
        FileKeepsDone(n - 1, before.0);
        DoneRunsThrough(after.0, n - 1);
        if after.1 {
          FileEndsDone(n - 1, before.0);
          DoneIsNoop(n - 1, after.0);
        } else {
          FailsAgain(n - 1, before.0);
        }
      }
    }
  }

  lemma {:induction false} SameTail(a: Db, b: Db, n: nat, m: nat)
    requires n <= m <= FILES && Migrate(a, n) == Migrate(b, n)
    ensures Migrate(a, m) == Migrate(b, m)
  {
    if n < m {
      SameTail(a, b, n, m - 1);
    }
  }

  /** Stopped anywhere before the last file, by an error or by hand, and restarted
      from the first: the database, and the verdict, of one uninterrupted run. */
  lemma ResumeIsRestart(db: Db, n: nat)
    requires n <= 8 && WellFormed(db)
    ensures Migrate(Migrate(db, n).0, FILES) == Migrate(db, FILES)
  {
    PrefixIdempotent(db, n);
    SameTail(Migrate(db, n).0, db, n, FILES);
  }
}
