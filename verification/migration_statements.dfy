/** Stops in the middle of a migration file. Each statement of 0002 and 0005 commits
    by itself; every other file is one statement or one transaction. */
module MigrationStatements {
  import opened Migrations
  import opened MigrationRuns

  datatype Statement =
    | AddKeyColumn(column: UserColumn)
    | IndexPrefix
    | RehomeCategories
    | DropViewsIndex
    | DropViews
    | DropRelatedArticles
    | DropUserColumn(column: UserColumn)
    | DropTable(table: Relation)
    | DropType(enum: EnumType)

  const KEY_STATEMENTS: seq<Statement> := [
    AddKeyColumn(ApiKeyPrefix), AddKeyColumn(ApiKeyHash), AddKeyColumn(ApiKeyName), AddKeyColumn(ApiKeyCreatedAt),
    AddKeyColumn(ApiKeyLastUsedAt), AddKeyColumn(ApiKeyRevokedAt), IndexPrefix]

  const ALIGN_STATEMENTS: seq<Statement> := [
    RehomeCategories, DropViewsIndex, DropViews, DropRelatedArticles,
    DropUserColumn(About), DropUserColumn(Occupation), DropUserColumn(Instagram), DropUserColumn(Facebook),
    DropUserColumn(Linkedin), DropUserColumn(Twitter), DropUserColumn(IsVerified), DropUserColumn(VerificationToken),
    DropUserColumn(VerificationTokenExpiresAt), DropUserColumn(VerificationSends), DropUserColumn(WelcomeEmailSentAt),
    DropUserColumn(SubscribedAt), DropUserColumn(IsActive), DropUserColumn(UnsubscribedAt),
    DropUserColumn(UnsubscribeToken),
    DropTable(DailyViewSnapshot), DropTable(ViewSnapshot), DropTable(Notification), DropTable(Announcement),
    DropTable(EmailLog), DropType(EmailMode), DropType(EmailLogStatus)]

  /** One statement, and whether it succeeded. */
  function Exec(st: Statement, db: Db): (Db, bool) {
    var s := db.schema;
    match st
    case AddKeyColumn(c) => (db.(schema := s.(userColumns := s.userColumns + {c})), true)
    case IndexPrefix =>
      if s.prefixIndex || NoDuplicatePrefixes(db.users) then (db.(schema := s.(prefixIndex := true)), true)
      else (db, false)
    case RehomeCategories =>
      if s.categoryHasJob then
        (db.(schema := s.(categoryHasJob := false), articles := Each(Rebucketed, db.articles)), true)
      else (db, true)
    case DropViewsIndex => (db.(schema := s.(indexes := s.indexes - {PublishedViews})), true)
    case DropViews => (db.(schema := s.(hasViews := false)), true)
    case DropRelatedArticles => (db.(schema := s.(hasRelatedArticles := false)), true)
    case DropUserColumn(c) => (db.(schema := s.(userColumns := s.userColumns - {c})), true)
    case DropTable(t) => (db.(schema := s.(tables := s.tables - {t})), true)
    case DropType(e) => (db.(schema := s.(enums := s.enums - {e})), true)
  }

  /** The first `k` statements, stopping at the first error. */
  function ExecFirst(statements: seq<Statement>, db: Db, k: nat): (Db, bool)
    requires k <= |statements|
  {
    if k == 0 then (db, true)
    else
      var before := ExecFirst(statements, db, k - 1);
      if before.1 then Exec(statements[k - 1], before.0) else before
  }

  /** The statements of the two files that are not atomic. */
  function Statements(n: nat): seq<Statement>
    requires n == 2 || n == 5
  {
    if n == 2 then KEY_STATEMENTS else ALIGN_STATEMENTS
  }

  /** What a statement is for. */
  predicate Effected(st: Statement, s: Schema) {
    match st
    case AddKeyColumn(c) => c in s.userColumns
    case IndexPrefix => s.prefixIndex
    case RehomeCategories => !s.categoryHasJob
    case DropViewsIndex => PublishedViews !in s.indexes
    case DropViews => !s.hasViews
    case DropRelatedArticles => !s.hasRelatedArticles
    case DropUserColumn(c) => c !in s.userColumns
    case DropTable(t) => t !in s.tables
    case DropType(e) => e !in s.enums
  }

  // ---- 0002 ----------------------------------------------------------------------------------

  /** `d` lies between `db` and what 0002 makes of it. */
  predicate PartlyKeyed(db: Db, d: Db) {
    && d == db.(schema := db.schema.(userColumns := d.schema.userColumns, prefixIndex := d.schema.prefixIndex))
    && db.schema.userColumns <= d.schema.userColumns <= db.schema.userColumns + KEY_COLUMNS
    && (d.schema.prefixIndex == db.schema.prefixIndex || (d.schema.prefixIndex && NoDuplicatePrefixes(db.users)))
  }

  predicate IsKeyStatement(st: Statement) {
    st.IndexPrefix? || (st.AddKeyColumn? && st.column in KEY_COLUMNS)
  }

  lemma KeyStep(db: Db, d: Db, st: Statement)
    requires PartlyKeyed(db, d) && IsKeyStatement(st)
    ensures var after := Exec(st, d);
            && PartlyKeyed(db, after.0)
            && (after.1 ==> Effected(st, after.0.schema))
            && (!after.1 ==> after.0 == d && st.IndexPrefix?)
            && forall other :: IsKeyStatement(other) && Effected(other, d.schema) ==> Effected(other, after.0.schema)
  {
  }

  lemma KeyStatements(k: nat)
    requires k < |KEY_STATEMENTS|
    ensures IsKeyStatement(KEY_STATEMENTS[k]) && (KEY_STATEMENTS[k].IndexPrefix? <==> k == 6)
  {
  }

  lemma {:induction false} KeyPrefixOf(db: Db, k: nat)
    requires k <= |KEY_STATEMENTS|
    ensures var part := ExecFirst(KEY_STATEMENTS, db, k);
            && PartlyKeyed(db, part.0) && (k <= 6 ==> part.1)
            && (forall j :: 0 <= j < k && (part.1 || j < 6) ==> Effected(KEY_STATEMENTS[j], part.0.schema))
            && (!part.1 ==> part.0 == ExecFirst(KEY_STATEMENTS, db, 6).0 && !part.0.schema.prefixIndex
                            && !NoDuplicatePrefixes(db.users))
  {
    if k > 0 {
      KeyPrefixOf(db, k - 1);
      KeyStatements(k - 1);
      var part := ExecFirst(KEY_STATEMENTS, db, k - 1);
      KeyStep(db, part.0, KEY_STATEMENTS[k - 1]);
      forall j | 0 <= j < k
        ensures IsKeyStatement(KEY_STATEMENTS[j])
      {
        KeyStatements(j);
      }
    }
  }

  lemma KeyedWhole(db: Db, d: Db)
    requires PartlyKeyed(db, d) && forall j :: 0 <= j < 6 ==> Effected(KEY_STATEMENTS[j], d.schema)
    ensures d.schema.userColumns == db.schema.userColumns + KEY_COLUMNS
  {
    assert Effected(KEY_STATEMENTS[0], d.schema) && Effected(KEY_STATEMENTS[1], d.schema);
    assert Effected(KEY_STATEMENTS[2], d.schema) && Effected(KEY_STATEMENTS[3], d.schema);
    assert Effected(KEY_STATEMENTS[4], d.schema) && Effected(KEY_STATEMENTS[5], d.schema);
  }

  lemma KeyFile(db: Db)
    ensures ExecFirst(KEY_STATEMENTS, db, |KEY_STATEMENTS|) == AddHashedApiKeyColumns(db)
  {
    var whole := ExecFirst(KEY_STATEMENTS, db, 7);
    KeyPrefixOf(db, 7);
    KeyedWhole(db, whole.0);
    assert whole.1 ==> Effected(KEY_STATEMENTS[6], whole.0.schema);
    KeyPrefixOf(db, 6);
    assert whole == Exec(IndexPrefix, ExecFirst(KEY_STATEMENTS, db, 6).0);
  }

  lemma KeyAbsorbed(db: Db, d: Db)
    requires PartlyKeyed(db, d)
    ensures AddHashedApiKeyColumns(d) == AddHashedApiKeyColumns(db)
  {
    assert d.schema.userColumns + KEY_COLUMNS == db.schema.userColumns + KEY_COLUMNS;
  }

  lemma KeyKeeps(db: Db, d: Db)
    requires PartlyKeyed(db, d) && WellFormed(db) && DoneBefore(2, db)
    requires d.schema.prefixIndex ==> ApiKeyPrefix in d.schema.userColumns
    ensures WellFormed(d) && DoneBefore(2, d)
  {
  }

  // ---- 0005 ----------------------------------------------------------------------------------

  /** `t` is `s` less some of `gone`. */
  predicate Shrunk<T>(s: set<T>, t: set<T>, gone: set<T>) {
    t <= s <= t + gone
  }

  lemma ShrunkMore<T>(s: set<T>, t: set<T>, gone: set<T>, x: T)
    requires Shrunk(s, t, gone) && x in gone
    ensures Shrunk(s, t - {x}, gone)
  {
  }

  /** The schema `t` lies between `s` and what 0005 makes of it. */
  predicate SchemaBetween(s: Schema, t: Schema) {
    && t.hasCoverInstagram == s.hasCoverInstagram && t.hasCoverImage == s.hasCoverImage
    && t.roleHasEditor == s.roleHasEditor && t.statusHasSaved == s.statusHasSaved
    && t.prefixIndex == s.prefixIndex && t.authProviderDefault == s.authProviderDefault
    && (t.categoryHasJob ==> s.categoryHasJob)
    && Shrunk(s.indexes, t.indexes, {PublishedViews})
    && Shrunk(s.userColumns, t.userColumns, RETIRED_COLUMNS)
    && t.tables <= s.tables && t.enums <= s.enums
  }

  /** `d` lies between `db` and what 0005 makes of it. */
  ghost predicate PartlyAligned(db: Db, d: Db) {
    && SchemaBetween(db.schema, d.schema)
    && d.users == db.users && d.bookmarks == db.bookmarks
    && d.articles == if db.schema.categoryHasJob && !d.schema.categoryHasJob then Each(Rebucketed, db.articles)
                     else db.articles
  }

  predicate IsAlignStatement(st: Statement) {
    !st.AddKeyColumn? && !st.IndexPrefix? && (st.DropUserColumn? ==> st.column in RETIRED_COLUMNS)
  }

  lemma AlignStep(db: Db, d: Db, st: Statement)
    requires PartlyAligned(db, d) && IsAlignStatement(st)
    ensures Exec(st, d).1 && PartlyAligned(db, Exec(st, d).0) && Effected(st, Exec(st, d).0.schema)
  {
    SchemaStep(db.schema, d, st);
  }

  lemma SchemaStep(s: Schema, d: Db, st: Statement)
    requires SchemaBetween(s, d.schema) && IsAlignStatement(st)
    ensures SchemaBetween(s, Exec(st, d).0.schema)
  {
    var t := d.schema;
    match st
    case RehomeCategories =>
    case DropViewsIndex => ShrunkMore(s.indexes, t.indexes, {PublishedViews}, PublishedViews);
    case DropViews =>
    case DropRelatedArticles =>
    case DropUserColumn(c) => ShrunkMore(s.userColumns, t.userColumns, RETIRED_COLUMNS, c);
    case DropTable(table) => assert t.tables - {table} <= t.tables;
    case DropType(enum) => assert t.enums - {enum} <= t.enums;
  }

  lemma AlignKeepsEffects(d: Db, st: Statement, other: Statement)
    requires IsAlignStatement(st) && IsAlignStatement(other) && Effected(other, d.schema)
    ensures Effected(other, Exec(st, d).0.schema)
  {
  }

  lemma AlignStatements(k: nat)
    requires k < |ALIGN_STATEMENTS|
    ensures IsAlignStatement(ALIGN_STATEMENTS[k])
  {
  }

  lemma {:induction false} AlignPrefixOf(db: Db, k: nat)
    requires k <= |ALIGN_STATEMENTS|
    ensures var part := ExecFirst(ALIGN_STATEMENTS, db, k);
            && part.1 && PartlyAligned(db, part.0)
            && forall j :: 0 <= j < k ==> Effected(ALIGN_STATEMENTS[j], part.0.schema)
  {
    if k > 0 {
      AlignPrefixOf(db, k - 1);
      AlignStatements(k - 1);
      var part := ExecFirst(ALIGN_STATEMENTS, db, k - 1);
      AlignStep(db, part.0, ALIGN_STATEMENTS[k - 1]);
      forall j | 0 <= j < k - 1
        ensures Effected(ALIGN_STATEMENTS[j], Exec(ALIGN_STATEMENTS[k - 1], part.0).0.schema)
      {
        AlignStatements(j);
        AlignKeepsEffects(part.0, ALIGN_STATEMENTS[k - 1], ALIGN_STATEMENTS[j]);
      }
    }
  }

  /** Every retired column, table and type has its statement. */
  lemma AllDropped(s: Schema)
    requires forall j :: 0 <= j < |ALIGN_STATEMENTS| ==> Effected(ALIGN_STATEMENTS[j], s)
    ensures s.userColumns !! RETIRED_COLUMNS && s.tables == {} && s.enums == {}
    ensures !s.categoryHasJob && PublishedViews !in s.indexes && !s.hasViews && !s.hasRelatedArticles
  {
    assert Effected(ALIGN_STATEMENTS[0], s) && Effected(ALIGN_STATEMENTS[1], s);
    assert Effected(ALIGN_STATEMENTS[2], s) && Effected(ALIGN_STATEMENTS[3], s);
    ColumnsDropped(s);
    assert Effected(ALIGN_STATEMENTS[19], s) && Effected(ALIGN_STATEMENTS[20], s);
    assert Effected(ALIGN_STATEMENTS[21], s) && Effected(ALIGN_STATEMENTS[22], s);
    assert Effected(ALIGN_STATEMENTS[23], s);
    assert s.tables - RETIRED_TABLES == s.tables;
    AllTables(s.tables);
    assert Effected(ALIGN_STATEMENTS[24], s) && Effected(ALIGN_STATEMENTS[25], s);
    assert s.enums - {EmailMode, EmailLogStatus} == s.enums;
    EnumsGone(s.enums);
  }

  lemma ColumnsDropped(s: Schema)
    requires forall j :: 0 <= j < |ALIGN_STATEMENTS| ==> Effected(ALIGN_STATEMENTS[j], s)
    ensures s.userColumns !! RETIRED_COLUMNS
  {
    assert Effected(ALIGN_STATEMENTS[4], s) && Effected(ALIGN_STATEMENTS[5], s);
    assert Effected(ALIGN_STATEMENTS[6], s) && Effected(ALIGN_STATEMENTS[7], s);
    assert Effected(ALIGN_STATEMENTS[8], s) && Effected(ALIGN_STATEMENTS[9], s);
    assert Effected(ALIGN_STATEMENTS[10], s) && Effected(ALIGN_STATEMENTS[11], s);
    assert Effected(ALIGN_STATEMENTS[12], s) && Effected(ALIGN_STATEMENTS[13], s);
    assert Effected(ALIGN_STATEMENTS[14], s) && Effected(ALIGN_STATEMENTS[15], s);
    assert Effected(ALIGN_STATEMENTS[16], s) && Effected(ALIGN_STATEMENTS[17], s);
    assert Effected(ALIGN_STATEMENTS[18], s);
  }

  lemma AlignFile(db: Db)
    ensures ExecFirst(ALIGN_STATEMENTS, db, |ALIGN_STATEMENTS|) == AlignSchema(db)
  {
    var whole := ExecFirst(ALIGN_STATEMENTS, db, |ALIGN_STATEMENTS|).0;
    AlignPrefixOf(db, |ALIGN_STATEMENTS|);
    AllDropped(whole.schema);
    AlignAbsorbed(db, whole);
    AlignedSchema(whole);
  }

  lemma AlignedSchema(d: Db)
    requires d.schema.userColumns !! RETIRED_COLUMNS && d.schema.tables == {} && d.schema.enums == {}
    requires !d.schema.categoryHasJob && PublishedViews !in d.schema.indexes
    requires !d.schema.hasViews && !d.schema.hasRelatedArticles
    ensures AlignSchema(d) == (d, true)
  {
    assert d.schema.userColumns - RETIRED_COLUMNS == d.schema.userColumns;
    assert d.schema.indexes - {PublishedViews} == d.schema.indexes;
    assert d.schema.tables - RETIRED_TABLES == d.schema.tables;
    assert d.schema.enums - {EmailMode, EmailLogStatus} == d.schema.enums;
  }

  lemma AlignAbsorbed(db: Db, d: Db)
    requires PartlyAligned(db, d)
    ensures AlignSchema(d) == AlignSchema(db)
  {
    var (s, t) := (db.schema, d.schema);
    assert t.userColumns - RETIRED_COLUMNS == s.userColumns - RETIRED_COLUMNS;
    assert t.indexes - {PublishedViews} == s.indexes - {PublishedViews};
    AllTables(s.tables);
    AllTables(t.tables);
    EnumsGone(s.enums);
    EnumsGone(t.enums);
  }

  lemma AllTables(tables: set<Relation>)
    ensures tables - RETIRED_TABLES == {}
  {
    forall t | t in tables
      ensures t in RETIRED_TABLES
    {
      match t
      case DailyViewSnapshot =>
      case ViewSnapshot =>
      case Notification =>
      case Announcement =>
      case EmailLog =>
    }
  }

  lemma AlignKeeps(db: Db, d: Db)
    requires PartlyAligned(db, d) && WellFormed(db) && DoneBefore(5, db)
    ensures WellFormed(d) && DoneBefore(5, d)
  {
  }

  // ---- Resuming -------------------------------------------------------------------------------

  /** Running all statements of a file is running the file. */
  lemma StatementsAreFile(n: nat, db: Db)
    requires n == 2 || n == 5
    ensures ExecFirst(Statements(n), db, |Statements(n)|) == File(n, db)
  {
    if n == 2 {
      KeyFile(db);
    } else {
      AlignFile(db);
    }
  }

  /** A file stopped after any of its statements has not undone an earlier file, and
      running it again from its start ends as if it had not been stopped. */
  lemma PartOfFile(db: Db, n: nat, k: nat)
    requires (n == 2 || n == 5) && k <= |Statements(n)| && WellFormed(db) && DoneBefore(n, db)
    ensures var part := ExecFirst(Statements(n), db, k).0;
            WellFormed(part) && DoneBefore(n, part) && File(n, part) == File(n, db)
  {
    var part := ExecFirst(Statements(n), db, k).0;
    if n == 2 {
      KeyPrefixOf(db, k);
      assert k > 0 ==> Effected(KEY_STATEMENTS[0], part.schema);
      KeyKeeps(db, part);
      KeyAbsorbed(db, part);
    } else {
      AlignPrefixOf(db, k);
      AlignKeeps(db, part);
      AlignAbsorbed(db, part);
    }
  }

  /** Stopped after any statement of a file and restarted from the first file: the
      database, and the verdict, of one uninterrupted run; and the stopped database
      is well formed, so the restart may be stopped in turn. */
  lemma ResumeFromStatement(db: Db, n: nat, k: nat)
    requires (n == 2 || n == 5) && k <= |Statements(n)| && WellFormed(db) && Migrate(db, n).1
    ensures var part := ExecFirst(Statements(n), Migrate(db, n).0, k).0;
            WellFormed(part) && Migrate(part, FILES) == Migrate(db, FILES)
  {
    var before := Migrate(db, n).0;
    MigrateWellFormed(db, n);
    MigrateEndsDone(db, n);
    PartOfFile(before, n, k);
    var part := ExecFirst(Statements(n), before, k).0;
    DoneRunsThrough(part, n);
    assert Migrate(part, n + 1) == File(n, part);
    assert Migrate(db, n + 1) == File(n, before);
    SameTail(part, db, n + 1, FILES);
  }
}
