# Sarkari World API: what the service keeps

This project models the stateful core of the Sarkari World content service and
proves what holds of it over every input, every table and every run. The service
is a Python API over Postgres; tables are modelled as sequences (or maps) of rows,
and each request is one atomic step.

| file | what it holds |
|---|---|
| `outcomes.dfy`, `sequences.dfy`, `ordering.dfy`, `text.dfy`, `units.dfy` | optional values, sequence vocabulary, ORDER BY as a relation, whitespace and case handling, lengths of time |
| `articles.dfy`, `paging.dfy`, `listing.dfy` | article rows; clamped pages and the client's walk along `next_page`; category listings and the sitemap |
| `query.dfy`, `search.dfy` | the query normaliser against the stored column; two-stage ranking |
| `payload.dfy`, `fields.dfy`, `writes.dfy`, `posts.dfy`, `columns.dfy`, `resave.dfy` | normaliser loops and what they make of each value, the partial merge, the article store and its runs, every column each request writes, saving served fields back |
| `admin.dfy` | the console's listing, filtered by status, category and IST days |
| `bookmarks.dfy`, `timeline.dfy` | toggles running beside article edits; the per-day activity query |
| `accounts.dfy`, `history.dfy` | users, API keys, sessions and roles; the overwritten fields against the event log |
| `migrations.dfy`, `migration_runs.dfy`, `migration_statements.dfy`, `migration_results.dfy` | the nine migration files as transformers of a database, composed by the deploy loop, and the statements of the two that are not atomic |
| `dates.dfy` | the calendar, IST conversion, the printer and the day bounds |

Code that changes state is written as a class whose methods update fields
(`Posts.ArticleStore`, `Accounts.UserStore`, `Bookmarks.BookmarkTable`,
`Migrations.Database`) or as a method with a loop (the normalisers, the deploy
loop); each is proved equal to a function of its inputs or its old state, and the
theorems are about runs of that function. An ORDER BY whose key can tie is a
relation (`Ordering.OrderBy`): theorems about search hold of every result the
database may return.

## Where the code and its documentation differ

The model follows the code; each difference is a theorem.

- `migrations/README.md:3-5` and `deploy/migrate-prod.sh:4-5` call re-running the
  chain a no-op. It is one exactly when no newsletter account was *stranded*, that
  is, spared by 0007 only because of bookmarks that 0008 then deletes
  (`MigrationResults.RerunIsNoopIff`; a database that shows it:
  `MigrationResults.RerunCanDelete`). The third run repeats the second on every
  database (`MigrationResults.ThirdRunIsNoop`).
- `src/services/articles.py:413-418` says an untouched save leaves `updated_at`
  alone. It does exactly for the rows in which no capped text ends in whitespace and
  every stored URL normalises to itself (`Resave.UntouchedSave`). Both can fail.
  Texts are trimmed before they are cut, and cover and link URLs are made canonical
  before they are cut. Moreover `valid_http_url` does not fix its own outputs: it
  trims first and drops empty delimiters after (`src/utils/urls.py:52-62`), so
  `http://a/ #` becomes `http://a/ ` and then `http://a/`. A URL far within its cap
  can therefore take two saves to come to rest; `Resave.SecondSave` says exactly when
  one is enough. The articles of `Resave.KeywordCutCanDangle`,
  `Resave.CoverCutCanMove` and `Resave.ShortCoverMovesTwice` are ones that a create
  request writes.
- `src/services/articles.py:90` says the query mirrors `title_normalized`. It
  mirrors it up to spacing: the column keeps the double spaces that the query
  collapses (`Query.QueryIsCollapsedTitle`), so a title is a substring hit for
  itself exactly when its stripped column has single spaces (`Query.OwnQueryOccurs`,
  `Query.OwnQueryCanMiss`).
- `page` is clamped to 1000 and `next_page` is not, so past 1000 full pages the
  walk repeats page 1000 for ever (`Paging.WalkStuck`, `Paging.WalkEndsIff`).
- A create always dates a publish, but an update does so only for a row without a
  date (`src/routers/v1/admin/posts.py:126-133`): an explicit null date on an already
  published article leaves it published and undated (`Posts.EditUndatesIff`,
  `Posts.NullingUndates`).
- `ist_day_bounds` fails for 9999-12-31, whose upper bound is outside the calendar
  (`Dates.BoundsFailIff`).
- `migrations/0005_align_to_trimmed_schema.sql:24-28` says that legacy `exam` rows
  go to `latest_job`; the statement splits them on the title, and the model
  follows the statement.

## Model

| member | source | states |
|---|---|---|
| Text.SpacesAre | src/utils/article_payload.py:32 | The code points that count as whitespace, enumerated |
| Text.LowerIs | src/services/articles.py:91 | Lower-casing moves the letters A to Z by 32 and changes neither length nor anything else |
| Text.StripIs | src/services/article_writes.py:46-48 | Stripping takes whitespace off both ends, all of it, and nothing else |
| Paging.TotalPagesLeast | src/schemas/pagination.py:31-32 | `total_pages` is the least positive number of pages that holds `total` rows, for every page size |
| Paging.FetchShape | src/routers/v1/public.py:103-119 | The envelope of every request: true total and page count, a size between 1 and 50, `has_more` exactly when a next page is named. A page number is clamped on the way in and `next_page` is not clamped on the way out: any page past 1000 is answered as page 1000, announcing 1001 while more is claimed |
| Paging.PageIs | src/schemas/pagination.py:27-78 | A response in full, in plain numbers: absent page 1 and size 15, clamps 1000 and 50, the rows between the page's two ends, the total, the least sufficient page count, and a next page exactly below it |
| Paging.FollowLength | src/schemas/pagination.py:67-78 | How many responses a walk from any page receives: it stops by itself only if the last page is within the clamp |
| Paging.FollowAt | src/schemas/pagination.py:67-78 | The i-th response of a walk is the page its clamped number names, before and after the clamp takes hold |
| Paging.WalkPrefix | src/routers/v1/public.py:103-119 | The first k responses concatenate to exactly the first k * per_page rows, for every k up to 1000 |
| Paging.WalkComplete | src/routers/v1/public.py:103-119 | Up to 1000 full pages the walk ends on its last page and concatenates to exactly the listing: each row once, in order |
| Paging.WalkStuck | src/schemas/pagination.py:41-45 | Past 1000 full pages every response announces a next page, every response from the 1000th on is the same, and the client has seen exactly the first 1000 * per_page rows |
| Paging.WalkEndsIff | src/schemas/pagination.py:66-78 | The walk ends if and only if the total is at most 1000 * per_page; if it does not end, no response ever shows a row past that point |
| Articles.NewestFirstUntied | src/services/articles.py:137-140 | With `id` as tie-breaker no two rows of a table tie in the listing order |
| Listing.ListingDetermined | src/services/articles.py:129-144 | Any newest-first arrangement of the published rows of a category is the same sequence, so pages taken by separate queries fit together |
| Listing.ListedIff | src/services/articles.py:120-144 | A row is listed in a category if and only if it is in the table, published, and of that category |
| Listing.ListingOrder | src/services/articles.py:137-140 | Of two listed rows the earlier is dated if the later is, is no older, and has the strictly larger id where the dates agree |
| Listing.CatalogueRestricted | src/services/articles.py:147-169 | The published catalogue restricted to one category is, in order, that category's listing: filtering commutes with the shared ordering |
| Listing.TruncatedIff | src/routers/v1/public.py:77-83 | `truncated` holds exactly past 50,000 published rows; what is served are the first entries of the ordered catalogue and no served row is older than a dropped one |
| Listing.SitemapRestricted | src/services/articles.py:147-178 | The sitemap restricted to a category is an initial stretch of the category listing, and the whole listing when nothing was truncated |
| Listing.ListingsPartitionSitemap | src/services/articles.py:147-190 | Over the eleven categories the listings partition the untruncated sitemap: every row is in exactly one listing, as often as in the sitemap |
| Listing.SitemapReachedByPaging | src/routers/v1/public.py:66-119 | An untruncated sitemap leaves no row out of reach of the category route: requesting page 1, 2, ... at 50 a page ends and yields exactly the sitemap rows of that category |
| Listing.CategoryPageIs | src/routers/v1/public.py:86-119 | A page of a category, in full: exactly the published rows of the category, newest first with undated last and larger ids first on a tie, cut at the page's two ends |
| Listing.SitemapIs | src/routers/v1/public.py:66-83 | The sitemap, in full: total, truncation past 50,000, and the slug, category and dates of each of the newest published rows |
| Query.ColumnKeeps | migrations/reference/schema.prisma:110 | A title of letters, digits and spaces is stored lower-cased and otherwise as it is |
| Query.ColumnBlanks | migrations/reference/schema.prisma:110 | Each run of other characters becomes exactly one space of the column |
| Query.QueryIsCollapsedTitle | src/services/articles.py:89-92 | Lower-casing before or after blanking makes no difference: the normalised query is the stored column with its spacing collapsed and trimmed |
| Query.CollapseIsJoin | src/services/articles.py:92 | Collapsing and trimming a text equals joining its words with single spaces |
| Query.QueryAlphabet | src/services/articles.py:26 | A normalised query holds only lower-case letters, digits and single spaces, so it carries no LIKE wildcard |
| Query.QueryIdempotent | src/services/articles.py:89-92 | Normalising a normalised query changes nothing |
| Query.TokensAreTitleWords | src/services/articles.py:113 | The tokens of a non-empty query are exactly the words of the column, rejoin to the query, and each occurs in the column even where the whole query does not |
| Query.OwnQueryOccurs | migrations/reference/schema.prisma:110 | A title's column contains the title's own query if and only if the stripped column has no two spaces in a row |
| Query.OwnQueryCanMiss | src/services/articles.py:89-92 | The title `a -b` is not a substring hit for itself |
| Search.TwoStageExists | src/services/articles.py:32-86 | For every table, query and limit the two-stage statement has a result: both orders are total preorders |
| Search.TwoStageRefinesOneStage | src/services/articles.py:61-85 | With at most 200 matches the two-stage form and ranking everything once allow exactly the same results |
| Search.Survivors | src/services/articles.py:61-85 | For every limit the result is a full cut, in rank order, of a full cut, in candidate order, of the matches: as many rows as each LIMIT allows, and none after a row left behind |
| Search.SurvivorsDominate | src/services/articles.py:61-85 | No returned row is below a dropped match in (exact hit, substring hit); under a limit below 200, which the service never passes, it may instead outrank it |
| Search.SearchExists | src/services/articles.py:95-117 | Every search has a result |
| Search.SearchIs | src/services/articles.py:95-117 | For every table, query and limit: nothing for a short or empty query, else exactly the least of 200, the limit clamped to 1..250 and the number of found rows, all of them found rows: published, and hit exactly, by trigrams, or by the normalised query as a substring |
| Search.SearchFindsExactly | src/services/articles.py:55-60 | With at most 200 rows, a row comes back if and only if it is in the table, published, and hit in one of the three ways |
| Search.SearchOrder | src/services/articles.py:74-84 | The order of results with every criterion written out: substring hit, number of query words in the column, 0.65 and 0.35 of the scores, fuzzy score, date |
| Search.SearchDrops | src/services/articles.py:61-62 | Which found rows a search may leave out: none that is better in (exact hit, substring hit) than a returned one |
| Search.ResultsRanked | src/services/articles.py:74-85 | Whatever the limit, the result is in rank order, drawn from the matching rows, and has at most 200 rows |
| Search.ResultsLexicographic | src/services/articles.py:75-84 | Any earlier result beats any later one by the first of substring hit, matched tokens, blended score, fuzzy score and date on which they differ |
| Search.SearchBounded | src/services/articles.py:95-117 | Only published rows come back, never more than the limit or 200; a query under two characters finds nothing |
| Search.SubstrHitsFirst | src/services/articles.py:61-85 | With at most 200 exact or substring hits, every substring hit is returned under the default limit, ahead of every other row: the cut never costs one |
| Fields.KeywordIs | src/utils/article_payload.py:105-108 | A keyword is the item's words, joined by single spaces, lower-cased and cut to 80; an item without a word is none |
| Fields.FaqIs | src/utils/article_payload.py:70-77 | An FAQ needs a word in question and in answer; joined words cut to 300, stripped text cut to 1500 |
| Fields.LinkIs | src/utils/article_payload.py:123-130 | A link needs a URL, cut to 2048; a call to action without a word reads `View`, another is cut to 60 |
| Fields.MediaIs | src/utils/article_payload.py:45-55 | A bare string is a URL without a title, an object's `url` counts before its `link`, the title is cut to 200 and the URL not at all |
| Fields.MetasAre | src/utils/article_payload.py:83-90 | The metas are joined words cut to 60 and to 160, and null without a word |
| Fields.CoverIs | src/utils/article_payload.py:61-63 | A cover is a URL cut to 2048, or null |
| Fields.CapsAre | src/utils/article_payload.py:42-58 | The lists keep the first 30 FAQs, 24 links and 20 media that normalise, in order; anything but a list keeps none |
| Fields.SplitIs | src/utils/article_payload.py:97-98 | Splitting gives pieces free of the separator that, put back together around it, are the text |
| Fields.KeywordInputs | src/utils/article_payload.py:93-115 | A text counts as the list of its comma-separated pieces, anything else as empty; a list gives all its distinct keywords, up to 24 |
| Payload.NormaliseSearchKeyword | src/utils/article_payload.py:93-115 | The loop with its `seen` set and early exit equals filter, de-duplicate, take 24, for every input shape |
| Payload.NormaliseFaqList | src/utils/article_payload.py:66-80 | The loop with its skips and early exit equals filter-and-map followed by the cap |
| Payload.NormaliseArticleLinks | src/utils/article_payload.py:118-133 | The loop equals filter-and-map followed by the cap, with the call-to-action fallback applied after the cut |
| Payload.NormaliseUrlTitleList | src/utils/article_payload.py:40-58 | The loop over strings, objects and anything else equals filter-and-map followed by the cap |
| Payload.DedupFirstOccurrences | src/utils/article_payload.py:102-112 | The kept values are the given values, each once, in the order of their first occurrences |
| Payload.KeywordsAreFirstDistinct | src/utils/article_payload.py:93-115 | The keywords are the first 24 distinct normalised items: a value is left out only when the list is full and every kept value occurred earlier |
| Writes.BuildArticleData | src/services/article_writes.py:33-97 | The dictionary filled key by key has exactly the keys the request warrants, each with its normalised value |
| Writes.MergeIsPartial | src/services/article_writes.py:41-42 | A column whose key is absent from the request keeps its value, for each of the fifteen keys and the author |
| Writes.MergeTwice | src/services/articles.py:420-421 | Merging the same data twice is merging it once |
| Writes.MergeAppliesKeys | src/services/article_writes.py:46-68 | Which column each plain key reaches; a null status or category and an empty slug change nothing, a null title empties, an unknown category files under the blog, markdown beats HTML, the author is always recorded |
| Writes.MergeAppliesLists | src/services/article_writes.py:70-91 | Each normalised key reaches its own column with the value of its own normaliser, and an explicit null empties the column |
| Writes.StampIffMoved | src/services/articles.py:404-426 | An update moves `updated_at` exactly when the net value of another column moved, whatever the clock reads |
| Writes.StatusStampIffMoved | src/services/articles.py:429-444 | A status change stamps exactly when it is not a no-op transition, and sets `published_at` only on a first publish |
| Posts.ArticleStore.Create | src/services/articles.py:396-401 | The inserted row has a fresh id and both timestamps from the database; no other row moves |
| Posts.ArticleStore.Update | src/services/articles.py:404-426 | The stored row becomes the merged one, stamped only on a net change; no other row moves |
| Posts.ArticleStore.SetStatus | src/services/articles.py:429-444 | The stored row becomes the one with the new status, dated on a first publish; no other row moves |
| Posts.ArticleStore.CreatePost | src/routers/v1/admin/posts.py:85-101 | The handler performs exactly the planned step: refusal on a bad or taken slug, else one insert, dated if it is published undated |
| Posts.ArticleStore.UpdatePost | src/routers/v1/admin/posts.py:104-137 | The handler performs exactly the planned step: missing article, slug held by another row, or one replaced row |
| Posts.ArticleStore.UpdatePostStatus | src/routers/v1/admin/posts.py:140-151 | The handler performs exactly the planned step of a status change |
| Posts.ArticleStore.PublishArticle | src/routers/v1/admin/posts.py:169-195 | The handler performs exactly the planned ingest step |
| Posts.ArticleStore.DeletePost | src/routers/v1/admin/posts.py:154-163 | The handler removes exactly the row with that slug, and fails exactly when there is none |
| Columns.CreatedColumns | src/services/articles.py:396-401 | Every column of a created row: each key sent reaches its own column with its normalised value, each other one has the default of the mapping (blog, draft, empty lists, null metas and cover); author, slug, date and stamps written out |
| Columns.IngestedColumns | src/routers/v1/admin/posts.py:188-193 | The same of an ingested row: always a draft, with the rendered body |
| Columns.EditedColumns | src/routers/v1/admin/posts.py:126-135 | Every column of an edited row: each key sent reaches its own column, each other one stays; the first-publish date, and the stamp exactly on a net change |
| Columns.StatusColumns | src/services/articles.py:429-444 | Every column of a row after a status change |
| Posts.SlugPattern | src/schemas/article.py:148 | A slug has 1 to 200 characters, each a lower-case letter, a digit or a dash |
| Posts.ValidSlugIsNormal | src/services/article_writes.py:50-51 | The slug pattern leaves the normaliser nothing to change, so the slug checked for uniqueness is the slug stored |
| Posts.PlanAdmissible | src/routers/v1/admin/posts.py:90-124 | From a table with distinct slugs no request plans a row whose slug another row holds: the checks suffice for the unique constraint |
| Posts.RefusedIff | src/routers/v1/admin/posts.py:85-195 | Exactly when each request is refused and with which error, in terms of which rows hold which slugs |
| Posts.RunKeepsWellFormed | src/models/article.py:21 | Ids and slugs stay distinct in every run of create, update, status change, ingest and delete |
| Posts.ApplyMovesRow | src/routers/v1/admin/posts.py:85-195 | What a step does to the row with a given id: it moves the row it names and no other |
| Posts.StepStamps | src/services/articles.py:404-444 | One request stamps a row with its own time exactly when it creates it or moves a column other than the stamp |
| Posts.UpdatedAtIsLastMoved | src/services/articles.py:404-444 | In every run `updated_at` is the time of the last step that created the row or moved the net value of another column |
| Posts.EditUndatesIff | src/routers/v1/admin/posts.py:126-133 | For every row and request: the edit ends published and undated if and only if it ends published, the first-publish rule does not apply, and the date is nulled or was missing and not sent |
| Posts.NullingUndates | src/routers/v1/admin/posts.py:126-135 | A request that only nulls the date of a published article leaves it published without one |
| Posts.StepKeepsDated | src/routers/v1/admin/posts.py:93-151 | Only an edit carrying an explicit null date can leave a published article undated; creating, ingesting, deleting and changing status never do |
| Posts.RunKeepsDated | src/routers/v1/admin/posts.py:93-151 | In every run without an edit that nulls the date, every published article has a publication date |
| Posts.StatusRunDatesOnce | src/services/articles.py:429-444 | Any sequence of status changes sets `published_at` at most once, from null to the time of the first publish; archiving and republishing keep it |
| Posts.IngestStaysHidden | src/routers/v1/admin/posts.py:177-193 | After any run of ingests and deletions every published row was already there at the start: automation alone makes nothing public |
| Resave.KeywordsAreStored | src/utils/article_payload.py:104-114 | Every keyword the loop returns is single-spaced, lower-case, non-empty and at most 80 long, but may end in the space the cut fell on |
| Resave.WritesKeepStored | src/services/article_writes.py:33-97 | Every write, whatever the request holds, leaves every column in its stored shape: trimmed at the front, capped, de-duplicated |
| Resave.WritesKeepSettled | src/utils/article_payload.py:40-63 | For any URL normaliser: a request each of whose URLs comes to rest at once (its stored form normalises and cuts to itself) leaves every URL of the row settled |
| Resave.KeywordsAgain | src/utils/article_payload.py:93-115 | Normalising stored keywords returns them unchanged if and only if none ends in a space, and then for good |
| Resave.KeywordPasses | src/utils/article_payload.py:93-115 | Three passes equal two on every input, and two equal one exactly when no keyword of the first ends in a space |
| Resave.FaqsAgain | src/utils/article_payload.py:66-80 | A second pass over stored FAQs trims each text, drops none, and changes nothing exactly when none ends in whitespace |
| Resave.LinksAgain | src/utils/article_payload.py:118-133 | A second pass over stored links drops exactly those whose cut URL is no URL and trims the rest; it changes nothing exactly when there is nothing to trim and every URL settles |
| Resave.MediasAgain | src/utils/article_payload.py:40-58 | The same for stored media, whose URLs are never cut |
| Resave.MergeServed | src/services/article_writes.py:70-95 | Saving the served fields back changes the row to its twice-normalised form and nothing else: no field reaches another column |
| Resave.UntouchedSave | src/services/articles.py:413-425 | For every row of stored shapes: saving its served fields back leaves the whole row and `updated_at` alone if and only if no capped text ends in whitespace and every stored URL normalises and cuts to itself; a second such save changes nothing if and only if the URLs do by then |
| Resave.UntouchedUpdate | src/routers/v1/admin/posts.py:104-137 | The update request of an untouched form, field by field: it is never refused, and the row it writes is the row itself if and only if no capped text ends in whitespace and every URL is settled |
| Resave.SecondSave | src/services/articles.py:413-425 | For any URL normaliser and every such row: a second untouched save changes nothing if and only if every stored URL is at rest once normalised again |
| Resave.KeywordCutCanDangle | src/utils/article_payload.py:105-108 | A create request with a keyword cut at a space writes an article that the first untouched save moves, whatever the URL normaliser |
| Resave.CoverCutCanMove | src/utils/article_payload.py:61-63 | A create request with a cover cut after a question mark writes an article with clean texts whose cover and stamp, and nothing else, the first untouched save moves |
| Resave.ShortCoverMovesTwice | src/utils/urls.py:52-62 | A create request with the cover `http://a/ ? #` writes an article with clean texts whose cover and stamp both the first and the second untouched save move |
| Resave.FirstRowIsReachable | src/routers/v1/admin/posts.py:85-101 | The articles of both examples are what the create step leaves in an empty table |
| Resave.RunKept | src/routers/v1/admin/posts.py:85-195 | Every run keeps stored shapes in every row, and settled URLs too when every URL of its requests comes to rest at once |
| Resave.RunKeepsStored | src/routers/v1/admin/posts.py:85-195 | Every row of every run from an empty table has stored shapes, whatever the requests hold, so the untouched-save theorem applies to all of them |
| Resave.SettlingRunsSave | src/routers/v1/admin/posts.py:85-195 | In runs whose request URLs all come to rest at once, an untouched save of any row is a no-op if and only if no capped text ends in whitespace |
| Bookmarks.BookmarkTable.Toggle | src/services/bookmarks.py:41-55 | Toggling removes the pair's row if there is one and otherwise appends one; the answer says which |
| Bookmarks.ToggleIs | src/routers/v1/account.py:65-76 | What a toggle request does to the whole state: nothing without a published article of that slug, else one row of the pair fewer, or one fresh row with the next id and its own time more |
| Bookmarks.TogglesLeaveArticles | src/services/bookmarks.py:41-55 | A run of toggles and article requests ends with the articles that its article requests alone make |
| Bookmarks.ToggleMovesPair | src/services/bookmarks.py:41-55 | A toggle moves the pair it names between none and one row and leaves every other pair's rows as many as they were |
| Bookmarks.ToggleParity | src/routers/v1/account.py:65-83 | In every run of toggles and article requests a pair has one row or none, and one exactly when its starting rows and successful toggles add up to an odd number |
| Bookmarks.JoinIsMap | src/services/bookmarks.py:29-33 | The outer join with the articles yields exactly one entry per bookmark row |
| Bookmarks.ListHoldsEveryBookmark | src/services/bookmarks.py:21-38 | A reader's list holds every bookmark row exactly once, newest first, with a null article exactly when the article is gone |
| Bookmarks.ListOrder | src/services/bookmarks.py:29-35 | Of two entries the earlier is the newer bookmark, or the larger id where the times agree; each belongs to the reader, and its article is the one it points at |
| Bookmarks.PagingListsEveryBookmark | src/routers/v1/account.py:35-62 | Walking the pages yields that whole list if and only if it fits 1000 pages; otherwise no response shows a row past them |
| Timeline.TimelineDays | src/services/articles.py:357-364 | Exactly `days` consecutive days of 24 hours, the last of them holding the present instant |
| Timeline.TimelineTotals | src/services/articles.py:370-383 | The columns sum to the articles created in the window and published in it up to now |
| Timeline.TimelineCounts | src/services/articles.py:370-383 | Each row counts exactly the articles created, and published up to now, in its own 24 hours, over the whole table |
| Accounts.UserStore.UpsertOauthUser | src/services/users.py:25-64 | Signing in performs exactly the planned step: a plain new user or a refreshed profile, never a role change |
| Accounts.UserStore.IssueApiKey | src/routers/v1/admin/users.py:83-113 | The route and `issue` together perform exactly the planned step, overwriting the previous key |
| Accounts.UserStore.RevokeApiKey | src/routers/v1/admin/users.py:116-130 | Revoking stamps the key of a user who holds one and changes nothing else |
| Accounts.UserStore.UpdateRole | src/routers/v1/admin/users.py:57-80 | The route performs exactly the planned step, refusing self-changes |
| Accounts.UserStore.InvalidateSessions | src/services/users.py:67-70 | Logging out stamps the caller's row and no other |
| History.StepAgrees | src/services/api_keys.py:93-118 | Every step keeps the key and session fields in agreement with the event log it appends to |
| History.RunAgrees | src/services/api_keys.py:93-118 | In every run with a monotone clock that goes on from an agreeing past, the overwritten fields agree with the full log |
| History.FreshContinues | src/services/api_keys.py:93-118 | A table in which nobody holds a key or was signed out agrees with an empty past |
| History.KeyResolvesByHistory | src/services/api_keys.py:55-90 | A candidate resolves to a user if and only if the log says so: it is the secret of that user's latest issue, no revoke came after, 30 days are not over, and the last role granted is editor or admin |
| History.MintedToken | src/services/tokens.py:42-52 | The claims: subject, normalised address, the whole second of minting, and 7 days for staff or 30 for readers |
| History.SessionAcceptedByHistory | src/services/tokens.py:42-85 | A session is accepted at an instant if and only if its user exists, the instant lies in its 7 or 30 days from the minting second, and the log holds no logout of the user at or after that second |
| History.NewSessionDeadOnlyInLogoutSecond | src/services/tokens.py:76-85 | A session minted after every logout is dead within its lifetime if and only if a logout fell in the same second |
| History.RequestLogged | src/routers/v1/admin/users.py:57-130 | What the log of the theorems above gains from each request that goes through, and nothing from a refused one |
| History.AllowedIff | src/routers/v1/admin/users.py:57-130 | Exactly when each administrative request goes through: admin actors, editor or admin key holders, the eleven-character prefix free, no self-change of role |
| History.SignInRefusedIff | src/services/users.py:38-64 | A sign-in fails exactly when another address holds the Google id it would write |
| History.SignInTouchesProfile | src/services/users.py:38-64 | Signing in lands on the row of the normalised address and touches its profile only: never role, key or logout stamp; a first sign-in is plain and keyless |
| History.RunKeepsIdentities | src/models/user.py:18-39 | In every run no two rows share an e-mail address or a Google id |
| History.StepKeepsAdmin | src/routers/v1/admin/users.py:66-70 | No step removes the last admin |
| History.RunKeepsAdmin | src/dependencies.py:115-124 | Every run that starts with an admin ends with one |
| History.StepRole | src/routers/v1/admin/users.py:57-80 | A user's role changes only by a role change of another user who is an admin at that moment; users who sign up are plain |
| History.RoleByHistory | src/services/users.py:38-64 | In every run a user's role is the one last granted through the role route, or the one the user came with |
| History.GrantsByOtherAdmins | src/routers/v1/admin/users.py:57-80 | Every role change on record was granted by another user who was an admin in the state before it |
| History.RoleMovesByOtherAdmins | src/routers/v1/admin/users.py:57-80 | Over a whole run a user's role differs from its first value only if such a grant of the final role is on record |
| AdminListing.ListedIffBetween | src/services/articles.py:224-247 | A row is listed if and only if it passes the text, category and status filters and its printed day lies between the two given days in string order, both included |
| AdminListing.RowsFailIff | src/services/articles.py:239-242 | The listing fails exactly when a given day is impossible or is 9999-12-31 |
| AdminListing.RowsDetermined | src/services/articles.py:245-247 | The order is fixed by the date and the id: any ordered arrangement of the filtered rows is the listing |
| AdminListing.RowsOrder | src/services/articles.py:238-246 | Of two listed rows the earlier has the later chosen date, created or updated as asked, and the larger id where the dates agree |
| Dates.DayNumberIs | src/utils/dates.py:37-40 | The day number in closed form, with the standard table of month starts and 97 leap days in 400 years |
| Dates.ValidDateIff | src/utils/dates.py:39 | The days of the calendar in plain numbers |
| Dates.MicrosAre | src/utils/dates.py:9 | The time line in plain numbers: 24 hours, 60 minutes, 60 seconds, a million microseconds |
| Dates.OrdinalOrder | src/utils/dates.py:40 | Day numbers order and identify the dates of the calendar, leap years included |
| Dates.ToIstFailsIff | src/utils/dates.py:25 | The conversion fails exactly when the value's UTC or IST reading leaves the years 1 to 9999 |
| Dates.ToIstKeepsInstant | src/utils/dates.py:11-25 | An aware value keeps its instant: the IST reading less 330 minutes is the original less its own offset, however many days, months or years the shift crosses |
| Dates.PrintedTextDenotes | src/utils/dates.py:19-34 | The printed text, read in full with the sign, hours and minutes of its offset, denotes the instant of the value truncated to milliseconds, a naive value being 330 minutes ahead of UTC |
| Dates.ParseRendered | src/utils/dates.py:28-34 | The printed form has 29 characters, and reading it back gives the value truncated to milliseconds, for years 1 to 9999 |
| Dates.StringOrderIsTimeOrder | src/utils/dates.py:28-34 | String order of the printed forms is time order at millisecond precision, and equal strings are equal milliseconds, for years 1 to 9999 |
| Dates.PrintedOrderIsInstantOrder | src/utils/dates.py:19-34 | Whatever offsets two values carry, their printed forms order as their instants do, to the millisecond, and parse back to those instants |
| Dates.InBoundsIffSameDay | src/utils/dates.py:37-40 | A naive value lies in a day's bounds if and only if its printed form starts with that day |
| Dates.BoundsInPrint | src/utils/dates.py:28-40 | A value is on or after the start of a day, or before its end, exactly as its first ten printed characters compare with the day as strings |
| Dates.BoundsFailIff | src/utils/dates.py:37-40 | The bounds fail exactly on impossible days and on 9999-12-31 |
| Migrations.Database.ApplyPreserveInstagramTags | migrations/0000_preserve_instagram_tags.sql:22-47 | The file performs exactly its transformation, guarded on the old column |
| Migrations.Database.ApplyAddHashedApiKeyColumns | migrations/0002_add_hashed_api_key_columns.sql:4-10 | The columns stay even when the unique index fails on duplicate prefixes |
| Migrations.Database.ApplyRenameCoverImageUrl | migrations/0003_rename_cover_image_url.sql:4-12 | The rename happens once, and fails if its target exists |
| Migrations.Database.ApplyRemoveSavedStatus | migrations/0004_remove_saved_article_status.sql:7-44 | The block happens once, and fails as a whole if `views` is gone |
| Migrations.Database.ApplyAlignSchema | migrations/0005_align_to_trimmed_schema.sql:29-101 | The re-bucketing happens at most once; the drops are unconditional |
| Migrations.Database.ApplyClearNonImageCovers | migrations/0006_clear_non_image_cover_urls.sql:7-9 | Exactly the Instagram covers are cleared; the file fails without the column |
| Migrations.Database.ApplyRemoveSubscriptionAccounts | migrations/0007_remove_subscription_accounts.sql:26-40 | Exactly the users who meet every condition are deleted, and the default becomes google |
| Migrations.Database.ApplyClearSecretsAndOrphans | migrations/0008_clear_legacy_secrets_and_orphans.sql:24-28 | Every plaintext key is cleared and exactly the orphaned bookmarks are deleted |
| Migrations.Database.MigrateProd | deploy/migrate-prod.sh:39-42 | The loop composes the nine files in order and stops at the first error |
| MigrationRuns.DoneIsNoop | migrations/README.md:3-5 | In the state a file leaves behind, the file succeeds and changes nothing |
| MigrationRuns.FileEndsDone | migrations/README.md:3-5 | A file that succeeds leaves the state in which it has nothing left to do |
| MigrationRuns.FileKeepsWellFormed | deploy/migrate-prod.sh:39-42 | Every file, failed or not, leaves a database its own schema allows |
| MigrationRuns.FileKeepsDone | deploy/migrate-prod.sh:39-42 | No file gives an earlier one (up to 0006) work to do again |
| MigrationRuns.PrefixIdempotent | deploy/migrate-prod.sh:39-42 | Running the first n files over their own result changes nothing, for every n short of the last file and whether or not one failed |
| MigrationRuns.ResumeIsRestart | deploy/migrate-prod.sh:4-6 | Stopped anywhere before the last file and restarted from 0000, the database and the verdict are those of one uninterrupted run |
| MigrationStatements.StatementsAreFile | migrations/0002_add_hashed_api_key_columns.sql:4-10 | The statements of 0002, and of 0005, run one by one up to the first error, come to exactly the file |
| MigrationStatements.PartOfFile | migrations/0005_align_to_trimmed_schema.sql:29-101 | Either file stopped after any of its statements has undone no earlier file, and run again from its start it ends as if it had not been stopped |
| MigrationStatements.ResumeFromStatement | deploy/migrate-prod.sh:4-6 | Stopped after any statement and restarted from 0000, the database and the verdict are those of one uninterrupted run; the stopped database is well formed, so the restart may be stopped in turn |
| MigrationResults.ChainSucceedsIff | deploy/migrate-prod.sh:39-42 | The exact starting databases on which the chain finishes; in particular 0003 never finds its target taken |
| MigrationResults.ArticlesAfterRun | migrations/0000_preserve_instagram_tags.sql:31-44 | No article is lost; old Instagram entries stay in front, a non-empty old cover is in the list with at most one entry appended, the cover is the old value unless it is an Instagram link, statuses and categories are re-homed and nothing else |
| MigrationResults.ExamRowsAfterRun | migrations/0005_align_to_trimmed_schema.sql:48-60 | After a finished run a legacy exam row is in each category if and only if its title holds one of that category's keywords, all written out, and none of a more specific one |
| MigrationResults.SchemaAfterRun | migrations/0005_align_to_trimmed_schema.sql:69-101 | The schema a finished run leaves: columns, labels, tables, types, index and default, all written out |
| MigrationResults.FinishedRun | deploy/migrate-prod.sh:4-5 | After a finished run every file except 0007 has nothing left to do |
| MigrationResults.UsersAfterRun | migrations/0007_remove_subscription_accounts.sql:26-35 | A user is gone after a finished run if and only if its provider is subscription, its Google id, login and key are null, its role is plain, no bookmark row has its id, and no article's author id reads as its id; keys are cleared, and a bookmark stays if and only if both its ends exist |
| MigrationResults.NextRunDeletes | migrations/0008_clear_legacy_secrets_and_orphans.sql:26-28 | The next run deletes exactly the accounts that met those conditions but held bookmarks, every one of them to a missing article; it is a no-op exactly when there was none |
| MigrationResults.AuthoredByAnother | migrations/0007_remove_subscription_accounts.sql:33-35 | A database with an authored article on which another user's newsletter account is deleted |
| MigrationResults.RerunIsNoopIff | migrations/0008_clear_legacy_secrets_and_orphans.sql:26-28 | Re-running a finished chain changes nothing if and only if no user was stranded; it always succeeds, touches no article or bookmark, and the third run changes nothing |
| MigrationResults.RerunCanDelete | migrations/0007_remove_subscription_accounts.sql:32 | A concrete database on which re-running deletes a user |
| MigrationResults.ThirdRunIsNoop | deploy/migrate-prod.sh:4-5 | On every database, finished or failed, the third run repeats the second; a failed run already repeats itself |
| MigrationResults.ResumeKeepsArticles | deploy/migrate-prod.sh:39-42 | Stopped after any number of files and restarted, the article rows are those of one uninterrupted run |

## Left out

- Routing, middleware, CSRF, CORS, settings, logging and OpenAPI text: no state worth a theorem.
- Postgres itself: sessions, transactions, locking and concurrent requests. Each request is one atomic step; the last-admin and parity theorems are about sequential runs.
- bcrypt, HS256 and Google verification: a stored hash matches exactly the secret it was made from, and a verified token is its claims.
- `nh3` and `markdown_it`: `htmlContent` is the sanitised body and `rendered` the rendered one.
- `valid_http_url`: an arbitrary function `canon`. The theorems about saving assume only that the empty string is no URL and no URL is empty. `Resave.DropDelimiters`, the normaliser of the two cover examples, does a part of what the service's does: trim, then drop an empty fragment and an empty query.
- Full-text and trigram matching, and `ts_rank` and `word_similarity`: hits and scores are given per row, and scores are reals, so rounding of the blended score is not modelled.
- Non-ASCII case folding: `Text.Lower` folds ASCII letters only, in the query, the keywords, e-mail addresses and the migrations' case-insensitive patterns.
- Request validation other than slugs and the fields the publishing body refuses: lengths and required titles are not checked, so the model also accepts bodies that the service would refuse, such as an FAQ with a question over 300 characters.
- Looking up category slugs: a body carries the category already looked up, or `Unknown`.
- Staff and role guards of the article routes: any caller may take those steps; the admin guard of the user routes is modelled.
- `published_at` in the untouched save: it is served with an offset and stored naive, and the driver's behaviour is not visible in the repository.
- Timestamp columns keep microseconds; the rounding of millisecond columns is not modelled.
- Admin statistics, category breakdown, the recent list, the web-URL queue, health checks and bookmark analytics: they would add easy members. `delete_for_article` is not called by the delete route, so bookmarks of a deleted article stay.
- The console's text search (ILIKE with the user's own wildcards) is a given predicate, and its page envelope, which has no `next_page`, is not modelled.
- Recording when a key was last used: no decision reads it.
- Migration DDL on indexes, defaults and types, except where it decides whether a statement succeeds; the base columns the files rely on (`api_key`, `auth_provider`, `google_id`) are taken to be present.
- A connection lost inside a statement or a transaction: the database then undoes it, so it counts as not run.
- JSON media columns that hold something other than a list or null.
- History.KeyResolvesByHistory: the unique index on the prefix makes issuing a secret whose prefix is taken fail, so such a request is a refused step. The roles a run starts with are data, since no route makes a first admin.
- Dates.InBoundsIffSameDay: days are written in ASCII digits. The route's `\d` and `strptime` also take other decimal digits; for such a day the bounds are those of the same date, but the printed form, in ASCII, does not start with it or compare with it as stated. Unpadded input, which `strptime` would take, never arrives. The same holds of `Dates.BoundsInPrint`.
- Dates.ParseRendered: relies on Python 3.14, which the project requires (`pyproject.toml:9`) and whose `strftime` pads `%Y` to four digits on every platform.
- AdminListing.ListedIffBetween: days in ASCII digits, and rows whose filtered column is a time of the calendar.
- Dates.ToIstKeepsInstant: converting a value whose zone is the service's own IST object is an identity in Python and is modelled as a shift by equal amounts.
