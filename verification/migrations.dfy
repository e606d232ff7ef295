/** The migration files as transformers of a database, and the loop that applies
    them. There is no ledger: a file knows whether it has run only by its guards. */
module Migrations {
  import opened Outcomes
  import opened Text
  import opened Query
  import opened Units
  import Articles

  // ---- The database ----------------------------------------------------------------------

  /** The article status enum before and after `saved` is removed. */
  datatype StatusValue = Saved | Kept(status: Articles.Status)

  /** The two legacy categories that are re-homed, and the current ones. */
  datatype CategoryValue = Job | Exam | Current(category: Articles.Category)

  /** An element of a media list: an object with optional keys, or a bare string. */
  datatype Entry = Tag(url: Option<string>, title: Option<string>) | Bare(text: string)

  /** A column that the schema lacks reads `None` in every row. */
  datatype ArticleRow = ArticleRow(
    title: string,
    authorId: Option<string>,
    status: StatusValue,
    category: CategoryValue,
    instagram: Option<seq<Entry>>,
    coverInstagram: Option<string>,
    coverImage: Option<string>)

  datatype Role = PlainUser | EditorRole | AdminRole

  datatype UserRow = UserRow(
    authProvider: string,
    googleId: Option<string>,
    lastLoginAt: Option<int>,
    role: Role,
    apiKey: Option<string>,
    apiKeyPrefix: Option<string>,
    apiKeyHash: Option<string>)

  datatype Bookmark = Bookmark(userId: int, articleId: int)

  datatype UserColumn =
    | ApiKeyPrefix | ApiKeyHash | ApiKeyName | ApiKeyCreatedAt | ApiKeyLastUsedAt | ApiKeyRevokedAt
    | About | Occupation | Instagram | Facebook | Linkedin | Twitter
    | IsVerified | VerificationToken | VerificationTokenExpiresAt | VerificationSends
    | WelcomeEmailSentAt | SubscribedAt | IsActive | UnsubscribedAt | UnsubscribeToken

  const KEY_COLUMNS: set<UserColumn> := {
    ApiKeyPrefix, ApiKeyHash, ApiKeyName, ApiKeyCreatedAt, ApiKeyLastUsedAt, ApiKeyRevokedAt}

  const RETIRED_COLUMNS: set<UserColumn> := {
    About, Occupation, Instagram, Facebook, Linkedin, Twitter, IsVerified, VerificationToken,
    VerificationTokenExpiresAt, VerificationSends, WelcomeEmailSentAt, SubscribedAt, IsActive,
    UnsubscribedAt, UnsubscribeToken}

  datatype Relation = DailyViewSnapshot | ViewSnapshot | Notification | Announcement | EmailLog

  const RETIRED_TABLES: set<Relation> := {DailyViewSnapshot, ViewSnapshot, Notification, Announcement, EmailLog}

  datatype EnumType = EmailMode | EmailLogStatus

  datatype Index = PublishedCreatedAt | PublishedViews | StatusCategoryCreatedAt

  datatype Schema = Schema(
    hasCoverInstagram: bool,
    hasCoverImage: bool,
    hasViews: bool,
    hasRelatedArticles: bool,
    roleHasEditor: bool,
    statusHasSaved: bool,
    categoryHasJob: bool,
    userColumns: set<UserColumn>,
    prefixIndex: bool,
    indexes: set<Index>,
    tables: set<Relation>,
    enums: set<EnumType>,
    authProviderDefault: string)

  datatype Db = Db(
    schema: Schema,
    articles: map<int, ArticleRow>,
    users: map<int, UserRow>,
    bookmarks: map<int, Bookmark>)

  predicate NoDuplicatePrefixes(users: map<int, UserRow>) {
    forall u, v :: u in users && v in users && u != v && users[u].apiKeyPrefix.Some? ==>
      users[u].apiKeyPrefix != users[v].apiKeyPrefix
  }

  /** A row holds nothing in columns or enum labels the schema lacks. */
  predicate RowFits(s: Schema, a: ArticleRow) {
    && (!s.hasCoverInstagram ==> a.coverInstagram.None?)
    && (!s.hasCoverImage ==> a.coverImage.None?)
    && (!s.statusHasSaved ==> a.status != Saved)
    && (!s.categoryHasJob ==> a.category.Current?)
  }

  predicate UsersFit(s: Schema, users: map<int, UserRow>) {
    && (ApiKeyPrefix !in s.userColumns ==> forall u :: u in users ==> users[u].apiKeyPrefix.None?)
    && (ApiKeyHash !in s.userColumns ==> forall u :: u in users ==> users[u].apiKeyHash.None?)
    && (s.prefixIndex ==> ApiKeyPrefix in s.userColumns && NoDuplicatePrefixes(users))
  }

  /** The database is one its schema allows. */
  ghost predicate WellFormed(db: Db) {
    && (forall i :: i in db.articles ==> RowFits(db.schema, db.articles[i]))
    && UsersFit(db.schema, db.users)
  }

  /** `UPDATE "Article" SET ...` on every row. */
  function Each(f: ArticleRow -> ArticleRow, articles: map<int, ArticleRow>): (r: map<int, ArticleRow>)
    ensures r.Keys == articles.Keys && forall i :: i in articles ==> r[i] == f(articles[i])
  {
    map i | i in articles :: f(articles[i])
  }

  // ---- 0000 preserve_instagram_tags --------------------------------------------------------

  function Entries(a: ArticleRow): seq<Entry> {
    if a.instagram.Some? then a.instagram.value else []
  }

  /** `list @> [{"url": url}]`. */
  predicate HoldsUrl(entries: seq<Entry>, url: string) {
    exists i | 0 <= i < |entries| :: entries[i].Tag? && entries[i].url == Some(url)
  }

  function Tagged(a: ArticleRow): ArticleRow {
    if a.coverInstagram.Some? && a.coverInstagram.value != "" && !HoldsUrl(Entries(a), a.coverInstagram.value) then
      a.(instagram := Some(Entries(a) + [Tag(a.coverInstagram, Some("Instagram"))]))
    else a
  }

  function WithoutCover(a: ArticleRow): ArticleRow {
    a.(coverImage := None)
  }

  function PreserveInstagramTags(db: Db): (Db, bool) {
    if db.schema.hasCoverInstagram then
      (db.(schema := db.schema.(hasCoverImage := false),
           articles := Each(WithoutCover, Each(Tagged, db.articles))), true)
    else (db, true)
  }

  // ---- 0001 and 0002 -----------------------------------------------------------------------

  function AddEditorRole(db: Db): (Db, bool) {
    (db.(schema := db.schema.(roleHasEditor := true)), true)
  }

  /** The columns commit before the index is attempted. */
  function AddHashedApiKeyColumns(db: Db): (Db, bool) {
    var indexed := db.schema.prefixIndex || NoDuplicatePrefixes(db.users);
    (db.(schema := db.schema.(userColumns := db.schema.userColumns + KEY_COLUMNS, prefixIndex := indexed)), indexed)
  }

  // ---- 0003 rename_cover_image_url -----------------------------------------------------------

  function Renamed(a: ArticleRow): ArticleRow {
    a.(coverImage := a.coverInstagram, coverInstagram := None)
  }

  /** The rename fails if its target exists. */
  function RenameCoverImageUrl(db: Db): (Db, bool) {
    if !db.schema.hasCoverInstagram then (db, true)
    else if db.schema.hasCoverImage then (db, false)
    else
      (db.(schema := db.schema.(hasCoverInstagram := false, hasCoverImage := true),
           articles := Each(Renamed, db.articles)), true)
  }

  // ---- 0004 remove_saved_article_status -------------------------------------------------------

  function Rehomed(a: ArticleRow): ArticleRow {
    if a.status == Saved then a.(status := Kept(Articles.Draft)) else a
  }

  /** One block: if `views` is gone the index rebuild fails and nothing is kept. */
  function RemoveSavedStatus(db: Db): (Db, bool) {
    if !db.schema.statusHasSaved then (db, true)
    else if !db.schema.hasViews then (db, false)
    else
      (db.(schema := db.schema.(statusHasSaved := false,
                                indexes := db.schema.indexes
                                           + {PublishedCreatedAt, PublishedViews, StatusCategoryCreatedAt}),
           articles := Each(Rehomed, db.articles)), true)
  }

  // ---- 0005 align_to_trimmed_schema ------------------------------------------------------------

  predicate Mentions(title: string, needles: seq<string>) {
    exists i | 0 <= i < |needles| :: Contains(Lower(title), needles[i])
  }

  /** The patterns of the title keywords, with their optional characters written out. */
  const ANSWER_KEY_WORDS := ["answerkey", "answer key", "answer-key"]
  const ADMIT_CARD_WORDS := ["admitcard", "admit card", "admit-card", "hall ticket", "call letter"]
  const RESULT_WORDS := [
    "result", "merit list", "selection list", "scorecard", "score card", "pick up list", "cutoff", "cut off"]
  const SYLLABUS_WORDS := ["syllabus", "exam pattern", "time table", "schedule", "calendar"]
  const ADMISSION_WORDS := ["admission", "counseling", "counselling", "entrance"]

  /** The title keywords, most specific first. */
  function Classify(title: string): Articles.Category {
    if Mentions(title, ANSWER_KEY_WORDS) then Articles.AnswerKey
    else if Mentions(title, ADMIT_CARD_WORDS) then Articles.AdmitCard
    else if Mentions(title, RESULT_WORDS) then Articles.Result
    else if Mentions(title, SYLLABUS_WORDS) then Articles.Syllabus
    else if Mentions(title, ADMISSION_WORDS) then Articles.Admission
    else Articles.LatestJob
  }

  function Rebucketed(a: ArticleRow): ArticleRow {
    match a.category
    case Job => a.(category := Current(Articles.LatestJob))
    case Exam => a.(category := Current(Classify(a.title)))
    case Current(_) => a
  }

  function AlignSchema(db: Db): (Db, bool) {
    var articles := if db.schema.categoryHasJob then Each(Rebucketed, db.articles) else db.articles;
    (db.(schema := db.schema.(categoryHasJob := false,
                              indexes := db.schema.indexes - {PublishedViews},
                              hasViews := false,
                              hasRelatedArticles := false,
                              userColumns := db.schema.userColumns - RETIRED_COLUMNS,
                              tables := db.schema.tables - RETIRED_TABLES,
                              enums := db.schema.enums - {EmailMode, EmailLogStatus}),
         articles := articles), true)
  }

  // ---- 0006 clear_non_image_cover_urls ----------------------------------------------------------

  predicate IsInstagram(url: string) {
    Contains(Lower(url), "instagram.com")
  }

  function Cleared(a: ArticleRow): ArticleRow {
    if a.coverImage.Some? && IsInstagram(a.coverImage.value) then a.(coverImage := None) else a
  }

  function ClearNonImageCovers(db: Db): (Db, bool) {
    if !db.schema.hasCoverImage then (db, false)
    else (db.(articles := Each(Cleared, db.articles)), true)
  }

  // ---- 0007 remove_subscription_accounts ---------------------------------------------------------

  /** `id::text`. */
  function IdText(id: int): string {
    if id < 0 then "-" + Decimal(-id) else Decimal(id)
  }

  predicate Authored(db: Db, id: int) {
    exists i | i in db.articles :: db.articles[i].authorId == Some(IdText(id))
  }

  predicate HoldsBookmark(db: Db, id: int) {
    exists b | b in db.bookmarks :: db.bookmarks[b].userId == id
  }

  /** Every deletion condition except the one about bookmarks. */
  predicate Inert(db: Db, id: int) {
    && id in db.users
    && db.users[id].authProvider == "subscription"
    && db.users[id].googleId.None? && db.users[id].lastLoginAt.None? && db.users[id].apiKeyHash.None?
    && db.users[id].role == PlainUser
    && !Authored(db, id)
  }

  function RemoveSubscriptionAccounts(db: Db): (Db, bool) {
    if ApiKeyHash !in db.schema.userColumns then (db, false)
    else
      (db.(users := map u | u in db.users && !(Inert(db, u) && !HoldsBookmark(db, u)) :: db.users[u],
           schema := db.schema.(authProviderDefault := "google")), true)
  }

  // ---- 0008 clear_legacy_secrets_and_orphans -----------------------------------------------------

  predicate Orphan(db: Db, b: Bookmark) {
    b.userId !in db.users || b.articleId !in db.articles
  }

  function ClearSecretsAndOrphans(db: Db): (Db, bool) {
    var cleared := db.(users := map u | u in db.users :: db.users[u].(apiKey := None));
    (cleared.(bookmarks := map b | b in db.bookmarks && !Orphan(cleared, db.bookmarks[b]) :: db.bookmarks[b]), true)
  }

  // ---- The deploy loop -----------------------------------------------------------------------------

  const FILES := 9

  /** The file at a position of the lexical order, and whether it succeeded. */
  function File(n: nat, db: Db): (Db, bool)
    requires n < FILES
  {
    match n
    case 0 => PreserveInstagramTags(db)
    case 1 => AddEditorRole(db)
    case 2 => AddHashedApiKeyColumns(db)
    case 3 => RenameCoverImageUrl(db)
    case 4 => RemoveSavedStatus(db)
    case 5 => AlignSchema(db)
    case 6 => ClearNonImageCovers(db)
    case 7 => RemoveSubscriptionAccounts(db)
    case _ => ClearSecretsAndOrphans(db)
  }

  /** The first `n` files, stopping at the first error. */
  function Migrate(db: Db, n: nat): (Db, bool)
    requires n <= FILES
  {
    if n == 0 then (db, true)
    else
      var before := Migrate(db, n - 1);
      if before.1 then File(n - 1, before.0) else before
  }

  /** A live database, changed in place by each file. */
  class Database {
    var schema: Schema
    var articles: map<int, ArticleRow>
    var users: map<int, UserRow>
    var bookmarks: map<int, Bookmark>

    ghost function Value(): Db
      reads this
    {
      Db(schema, articles, users, bookmarks)
    }

    constructor (db: Db)
      ensures Value() == db
    {
      schema, articles, users, bookmarks := db.schema, db.articles, db.users, db.bookmarks;
    }

    method ApplyPreserveInstagramTags() returns (ok: bool)
      modifies this
      ensures (Value(), ok) == PreserveInstagramTags(old(Value()))
    {
      if schema.hasCoverInstagram {
        articles := Each(Tagged, articles);
        schema := schema.(hasCoverImage := false);
        articles := Each(WithoutCover, articles);
      }
      ok := true;
    }

    method ApplyAddHashedApiKeyColumns() returns (ok: bool)
      modifies this
      ensures (Value(), ok) == AddHashedApiKeyColumns(old(Value()))
    {
      schema := schema.(userColumns := schema.userColumns + KEY_COLUMNS);
      if !schema.prefixIndex {
        if !NoDuplicatePrefixes(users) {
          return false;
        }
        schema := schema.(prefixIndex := true);
      }
      ok := true;
    }

    method ApplyRenameCoverImageUrl() returns (ok: bool)
      modifies this
      ensures (Value(), ok) == RenameCoverImageUrl(old(Value()))
    {
      if schema.hasCoverInstagram {
        if schema.hasCoverImage {
          return false;
        }
        articles := Each(Renamed, articles);
        schema := schema.(hasCoverInstagram := false, hasCoverImage := true);
      }
      ok := true;
    }

    method ApplyRemoveSavedStatus() returns (ok: bool)
      modifies this
      ensures (Value(), ok) == RemoveSavedStatus(old(Value()))
    {
      if schema.statusHasSaved {
        if !schema.hasViews {
          return false;
        }
        articles := Each(Rehomed, articles);
        schema := schema.(statusHasSaved := false);
        schema := schema.(indexes := schema.indexes + {PublishedCreatedAt, PublishedViews, StatusCategoryCreatedAt});
      }
      ok := true;
    }

    method ApplyAlignSchema() returns (ok: bool)
      modifies this
      ensures (Value(), ok) == AlignSchema(old(Value()))
    {
      if schema.categoryHasJob {
        articles := Each(Rebucketed, articles);
        schema := schema.(categoryHasJob := false);
      }
      schema := schema.(indexes := schema.indexes - {PublishedViews});
      schema := schema.(hasViews := false, hasRelatedArticles := false);
      schema := schema.(userColumns := schema.userColumns - RETIRED_COLUMNS);
      schema := schema.(tables := schema.tables - RETIRED_TABLES);
      schema := schema.(enums := schema.enums - {EmailMode, EmailLogStatus});
      ok := true;
    }

    method ApplyClearNonImageCovers() returns (ok: bool)
      modifies this
      ensures (Value(), ok) == ClearNonImageCovers(old(Value()))
    {
      if !schema.hasCoverImage {
        return false;
      }
      articles := Each(Cleared, articles);
      ok := true;
    }

    method ApplyRemoveSubscriptionAccounts() returns (ok: bool)
      modifies this
      ensures (Value(), ok) == RemoveSubscriptionAccounts(old(Value()))
    {
      if ApiKeyHash !in schema.userColumns {
        return false;
      }
      var db := Db(schema, articles, users, bookmarks);
      users := map u | u in users && !(Inert(db, u) && !HoldsBookmark(db, u)) :: users[u];
      schema := schema.(authProviderDefault := "google");
      ok := true;
    }

    method ApplyClearSecretsAndOrphans() returns (ok: bool)
      modifies this
      ensures (Value(), ok) == ClearSecretsAndOrphans(old(Value()))
    {
      users := map u | u in users :: users[u].(apiKey := None);
      var db := Db(schema, articles, users, bookmarks);
      bookmarks := map b | b in bookmarks && !Orphan(db, bookmarks[b]) :: bookmarks[b];
      ok := true;
    }

    method ApplyFile(n: nat) returns (ok: bool)
      requires n < FILES
      modifies this
      ensures (Value(), ok) == File(n, old(Value()))
    {
      match n {
        case 0 => ok := ApplyPreserveInstagramTags();
        case 1 =>
          schema := schema.(roleHasEditor := true);
          ok := true;
        case 2 => ok := ApplyAddHashedApiKeyColumns();
        case 3 => ok := ApplyRenameCoverImageUrl();
        case 4 => ok := ApplyRemoveSavedStatus();
        case 5 => ok := ApplyAlignSchema();
        case 6 => ok := ApplyClearNonImageCovers();
        case 7 => ok := ApplyRemoveSubscriptionAccounts();
        case _ => ok := ApplyClearSecretsAndOrphans();
      }
    }

    /** The deploy script's loop: every file in order, stopping at the first error. */
    method MigrateProd() returns (ok: bool)
      modifies this
      ensures (Value(), ok) == Migrate(old(Value()), FILES)
    {
      ok := true;
      var n := 0;
      while n < FILES
        invariant 0 <= n <= FILES
        invariant ok && (Value(), ok) == Migrate(old(Value()), n)
      {
        ok := ApplyFile(n);
        n := n + 1;
        if !ok {
          StoppedStaysStopped(old(Value()), n, FILES);
          return;
        }
      }
    }
  }

  lemma {:induction false} StoppedStaysStopped(db: Db, n: nat, m: nat)
    requires n <= m <= FILES && !Migrate(db, n).1
    ensures Migrate(db, m) == Migrate(db, n)
  {
    if n < m {
      StoppedStaysStopped(db, n, m - 1);
    }
  }
}
