/** Two-stage search: cut the matches to 200 by one order, re-rank the survivors
    by another. Both orders have ties, so the result is a relation. */
module Search {
  import opened Outcomes
  import opened Sequences
  import opened Ordering
  import opened Text
  import opened Articles
  import opened Query

  const SEARCH_QUERY_MAX := 100
  const SEARCH_RESULT_MAX := 250
  const CANDIDATES_MAX := 200

  /** An article with the hits and scores the database computes for the query at hand. */
  datatype Row = Row(article: Article, exactHit: bool, fuzzyHit: bool, exactScore: real, fuzzyScore: real)

  predicate SubstrHit(q: string, r: Row) {
    Contains(TitleNormalized(r.article.title), q)
  }

  function Matching(q: string): Row -> bool {
    (r: Row) => r.article.status == Published && (r.exactHit || r.fuzzyHit || SubstrHit(q, r))
  }

  function TokenHits(tokens: seq<string>, r: Row): nat {
    if tokens == [] then 0
    else (if Contains(TitleNormalized(r.article.title), tokens[0]) then 1 else 0) + TokenHits(tokens[1..], r)
  }

  function Blended(r: Row): real {
    r.exactScore * 0.65 + r.fuzzyScore * 0.35
  }

  /** `exact_hit DESC, substr_hit DESC`. */
  predicate CandidateLe(q: string, a: Row, b: Row) {
    || (a.exactHit && !b.exactHit)
    || (a.exactHit == b.exactHit && (SubstrHit(q, b) ==> SubstrHit(q, a)))
  }

  /** `published_at DESC NULLS LAST`, without a tie-breaker. */
  predicate NewerOrSame(a: Option<int>, b: Option<int>) {
    b.None? || (a.Some? && a.value >= b.value)
  }

  /** Substring hit, matched tokens, blended score, fuzzy score, publication date; all descending. */
  predicate RankLe(q: string, a: Row, b: Row) {
    var (ha, hb) := (SubstrHit(q, a), SubstrHit(q, b));
    var (ta, tb) := (TokenHits(Tokens(q), a), TokenHits(Tokens(q), b));
    if ha != hb then ha
    else if ta != tb then ta > tb
    else if Blended(a) != Blended(b) then Blended(a) > Blended(b)
    else if a.fuzzyScore != b.fuzzyScore then a.fuzzyScore > b.fuzzyScore
    else NewerOrSame(a.article.publishedAt, b.article.publishedAt)
  }

  function CandidateOrder(q: string): (Row, Row) -> bool {
    (a: Row, b: Row) => CandidateLe(q, a, b)
  }

  function RankOrder(q: string): (Row, Row) -> bool {
    (a: Row, b: Row) => RankLe(q, a, b)
  }

  function Matches(table: seq<Row>, q: string): seq<Row> {
    Filter(Matching(q), table)
  }

  function ClampLimit(limit: int): nat {
    var capped := if limit < SEARCH_RESULT_MAX then limit else SEARCH_RESULT_MAX;
    if capped < 1 then 1 else capped
  }

  /** What the SQL may return for a normalised query. */
  ghost predicate TwoStage(table: seq<Row>, q: string, limit: nat, out: seq<Row>) {
    exists ordered, ranked ::
      && OrderBy(CandidateOrder(q), Matches(table, q), ordered)
      && OrderBy(RankOrder(q), Take(ordered, CANDIDATES_MAX), ranked)
      && out == Take(ranked, limit)
  }

  /** Ranking every match and cutting once. */
  ghost predicate OneStage(table: seq<Row>, q: string, limit: nat, out: seq<Row>) {
    exists ranked :: OrderBy(RankOrder(q), Matches(table, q), ranked) && out == Take(ranked, limit)
  }

  /** `search_published`: too-short and empty queries match nothing. */
  ghost predicate SearchPublished(table: seq<Row>, query: string, limit: int, out: seq<Row>) {
    var trimmed := Take(Strip(query), SEARCH_QUERY_MAX);
    var q := NormaliseQuery(trimmed);
    if |trimmed| < 2 || q == "" then out == []
    else TwoStage(table, q, ClampLimit(limit), out)
  }

  lemma CandidateOrderIsTotal(q: string)
    ensures TotalPreorder(CandidateOrder(q))
  {
    var le := CandidateOrder(q);
    forall a, b, c | le(a, b) && le(b, c)
      ensures le(a, c)
    {
      assert CandidateLe(q, a, b) && CandidateLe(q, b, c);
    }
  }

  lemma RankTransitive(q: string, a: Row, b: Row, c: Row)
    requires RankLe(q, a, b) && RankLe(q, b, c)
    ensures RankLe(q, a, c)
  {
  }

  lemma RankOrderIsTotal(q: string)
    ensures TotalPreorder(RankOrder(q))
  {
    var le := RankOrder(q);
    forall a, b, c | le(a, b) && le(b, c)
      ensures le(a, c)
    {
      RankTransitive(q, a, b, c);
    }
  }

  /** The SQL always has a result. */
  lemma TwoStageExists(table: seq<Row>, q: string, limit: nat)
    ensures exists out :: TwoStage(table, q, limit, out)
  {
    CandidateOrderIsTotal(q);
    RankOrderIsTotal(q);
    var ordered := Sort(CandidateOrder(q), Matches(table, q));
    SortOrders(CandidateOrder(q), Matches(table, q));
    var ranked := Sort(RankOrder(q), Take(ordered, CANDIDATES_MAX));
    SortOrders(RankOrder(q), Take(ordered, CANDIDATES_MAX));
    assert TwoStage(table, q, limit, Take(ranked, limit));
  }

  /** With at most 200 matches the first stage is invisible: both forms allow the same results. */
  lemma TwoStageRefinesOneStage(table: seq<Row>, q: string, limit: nat, out: seq<Row>)
    requires |Matches(table, q)| <= CANDIDATES_MAX
    ensures TwoStage(table, q, limit, out) <==> OneStage(table, q, limit, out)
  {
    var rows := Matches(table, q);
    if TwoStage(table, q, limit, out) {
      var ordered, ranked :|
        && OrderBy(CandidateOrder(q), rows, ordered)
        && OrderBy(RankOrder(q), Take(ordered, CANDIDATES_MAX), ranked)
        && out == Take(ranked, limit);
      assert |multiset(ordered)| == |multiset(rows)|;
      assert OrderBy(RankOrder(q), rows, ranked);
    }
    if OneStage(table, q, limit, out) {
      var ranked :| OrderBy(RankOrder(q), rows, ranked) && out == Take(ranked, limit);
      CandidateOrderIsTotal(q);
      var ordered := Sort(CandidateOrder(q), rows);
      SortOrders(CandidateOrder(q), rows);
      assert |multiset(ordered)| == |multiset(rows)|;
      assert OrderBy(RankOrder(q), Take(ordered, CANDIDATES_MAX), ranked);
    }
  }

  /** Rows that matched but were not returned. */
  ghost function Dropped(table: seq<Row>, q: string, out: seq<Row>): multiset<Row> {
    multiset(Matches(table, q)) - multiset(out)
  }

  lemma CutAt<T>(s: seq<T>, n: nat)
    requires n <= |s|
    ensures multiset(s) - multiset(s[..n]) == multiset(s[n..])
  {
    assert s == s[..n] + s[n..];
  }

  lemma CutDominates<T>(le: (T, T) -> bool, s: seq<T>, n: nat, kept: T, dropped: T)
    requires Ordered(le, s) && n <= |s| && kept in s[..n] && dropped in s[n..]
    ensures le(kept, dropped)
  {
    var i :| 0 <= i < n && s[..n][i] == kept;
    var j :| 0 <= j < |s| - n && s[n..][j] == dropped;
    assert s[i] == kept && s[n + j] == dropped;
  }

  /** A cut of an ordering keeps only rows that may stand before every row it drops. */
  lemma CutSurvivors<T>(le: (T, T) -> bool, rows: seq<T>, ordered: seq<T>, n: nat, out: seq<T>)
    requires OrderBy(le, rows, ordered) && n <= |ordered| && multiset(out) == multiset(ordered[..n])
    ensures |out| == n && multiset(out) <= multiset(rows)
    ensures forall kept, d :: kept in out && d in multiset(rows) - multiset(out) ==> le(kept, d)
  {
    CutAt(ordered, n);
    assert |multiset(out)| == |multiset(ordered[..n])|;
    assert ordered == ordered[..n] + ordered[n..];
    forall kept, d | kept in out && d in multiset(rows) - multiset(out)
      ensures le(kept, d)
    {
      SameElements(out, ordered[..n], kept);
      assert d in multiset(ordered[n..]);
      CutDominates(le, ordered, n, kept, d);
    }
  }

  /** `cut` is what a LIMIT may keep of `rows` in this order: as many rows as it
      allows, none of them after a row left behind. */
  ghost predicate CutOf<T(!new)>(le: (T, T) -> bool, rows: seq<T>, limit: nat, cut: seq<T>) {
    && |cut| == (if limit < |rows| then limit else |rows|)
    && multiset(cut) <= multiset(rows)
    && forall kept, d :: kept in cut && d in multiset(rows) - multiset(cut) ==> le(kept, d)
  }

  lemma TakeIsCut<T(!new)>(le: (T, T) -> bool, rows: seq<T>, ordered: seq<T>, limit: nat)
    requires OrderBy(le, rows, ordered)
    ensures CutOf(le, rows, limit, Take(ordered, limit))
  {
    assert |multiset(ordered)| == |multiset(rows)|;
    var n := if limit < |ordered| then limit else |ordered|;
    assert ordered[..|ordered|] == ordered;
    CutSurvivors(le, rows, ordered, n, Take(ordered, limit));
  }

  /** For every limit: the result is a cut, in rank order, of a cut, in candidate order, of the matches. */
  lemma Survivors(table: seq<Row>, q: string, limit: nat, out: seq<Row>)
    requires TwoStage(table, q, limit, out)
    ensures exists candidates ::
              && CutOf(CandidateOrder(q), Matches(table, q), CANDIDATES_MAX, candidates)
              && CutOf(RankOrder(q), candidates, limit, out)
  {
    var rows := Matches(table, q);
    var ordered, ranked :|
      && OrderBy(CandidateOrder(q), rows, ordered)
      && OrderBy(RankOrder(q), Take(ordered, CANDIDATES_MAX), ranked)
      && out == Take(ranked, limit);
    TakeIsCut(CandidateOrder(q), rows, ordered, CANDIDATES_MAX);
    TakeIsCut(RankOrder(q), Take(ordered, CANDIDATES_MAX), ranked, limit);
  }

  lemma TwoCuts<T(!new)>(
      first: (T, T) -> bool, second: (T, T) -> bool, rows: seq<T>, candidates: seq<T>, out: seq<T>,
      n: nat, limit: nat, kept: T, dropped: T)
    requires CutOf(first, rows, n, candidates) && CutOf(second, candidates, limit, out)
    requires kept in out && dropped in multiset(rows) - multiset(out)
    ensures first(kept, dropped) || (limit < n && second(kept, dropped))
  {
    assert kept in multiset(candidates);
    assert n <= limit ==> |multiset(candidates) - multiset(out)| == 0;
    assert dropped in multiset(candidates) - multiset(out) || dropped in multiset(rows) - multiset(candidates);
  }

  /** No returned row is below a dropped match: not in exact hits and, where those
      agree, not in substring hits; under a limit below 200 it may instead outrank it. */
  lemma SurvivorsDominate(table: seq<Row>, q: string, limit: nat, out: seq<Row>, kept: Row, dropped: Row)
    requires TwoStage(table, q, limit, out) && kept in out && dropped in Dropped(table, q, out)
    ensures || (limit < CANDIDATES_MAX && RankLe(q, kept, dropped))
            || ((dropped.exactHit ==> kept.exactHit)
                && (dropped.exactHit == kept.exactHit && SubstrHit(q, dropped) ==> SubstrHit(q, kept)))
  {
    Survivors(table, q, limit, out);
    var candidates :|
      && CutOf(CandidateOrder(q), Matches(table, q), CANDIDATES_MAX, candidates)
      && CutOf(RankOrder(q), candidates, limit, out);
    TwoCuts(CandidateOrder(q), RankOrder(q), Matches(table, q), candidates, out, CANDIDATES_MAX, limit, kept, dropped);
    assert CandidateOrder(q)(kept, dropped) ==> CandidateLe(q, kept, dropped);
  }

  /** Whatever the limit, the result is ranked, drawn from the matches, and has at most 200 rows. */
  lemma ResultsRanked(table: seq<Row>, q: string, limit: nat, out: seq<Row>)
    requires TwoStage(table, q, limit, out)
    ensures |out| <= CANDIDATES_MAX && |out| <= limit
    ensures Ordered(RankOrder(q), out)
    ensures forall r :: r in out ==> r in table && Matching(q)(r)
  {
    var rows := Matches(table, q);
    var ordered, ranked :|
      && OrderBy(CandidateOrder(q), rows, ordered)
      && OrderBy(RankOrder(q), Take(ordered, CANDIDATES_MAX), ranked)
      && out == Take(ranked, limit);
    assert |multiset(ranked)| == |multiset(Take(ordered, CANDIDATES_MAX))|;
    forall r | r in out
      ensures r in table && Matching(q)(r)
    {
      assert r in ranked;
      SameElements(ranked, Take(ordered, CANDIDATES_MAX), r);
      SameElements(ordered, rows, r);
      FilterIn(Matching(q), table, r);
    }
  }

  /** Results are ordered by one criterion after another: substring hits first;
      among equals, more matched tokens; then the blended score, the fuzzy score, the date. */
  lemma ResultsLexicographic(table: seq<Row>, q: string, limit: nat, out: seq<Row>, i: nat, j: nat)
    requires TwoStage(table, q, limit, out) && i < j < |out|
    ensures var a, b, tokens := out[i], out[j], Tokens(q);
            && (SubstrHit(q, b) ==> SubstrHit(q, a))
            && (SubstrHit(q, a) == SubstrHit(q, b) ==> TokenHits(tokens, a) >= TokenHits(tokens, b))
            && (SubstrHit(q, a) == SubstrHit(q, b) && TokenHits(tokens, a) == TokenHits(tokens, b) ==>
                  && Blended(a) >= Blended(b)
                  && (Blended(a) == Blended(b) ==>
                        && a.fuzzyScore >= b.fuzzyScore
                        && (a.fuzzyScore == b.fuzzyScore ==>
                              b.article.publishedAt.None? || (a.article.publishedAt.Some?
                              && a.article.publishedAt.value >= b.article.publishedAt.value))))
  {
    ResultsRanked(table, q, limit, out);
    assert RankOrder(q)(out[i], out[j]);
  }

  /** The trimmed and cut text of a query. */
  function Trimmed(query: string): string {
    if |Strip(query)| <= 100 then Strip(query) else Strip(query)[..100]
  }

  /** The rows a query finds before any cut, as the statement's WHERE clause names them:
      published, and hit exactly, by trigrams, or by the normalised query as a substring. */
  predicate Found(query: string, r: Row) {
    && r.article.status == Published
    && (r.exactHit || r.fuzzyHit || Contains(TitleNormalized(r.article.title), NormaliseQuery(Trimmed(query))))
  }

  /** What a search returns: nothing for a query that is too short or normalises to
      nothing; else as many of the found rows as there are, up to 200 and to the limit
      clamped to 1..250, each as often as the table holds it. */
  lemma SearchIs(table: seq<Row>, query: string, limit: int, out: seq<Row>) returns (hits: seq<Row>)
    requires SearchPublished(table, query, limit, out)
    ensures forall r :: multiset(hits)[r] == if Found(query, r) then multiset(table)[r] else 0
    ensures if |Trimmed(query)| < 2 || NormaliseQuery(Trimmed(query)) == "" then out == []
            else |out| == Least(200, Least(if limit < 1 then 1 else Least(limit, 250), |hits|))
                 && multiset(out) <= multiset(hits)
  {
    var q := NormaliseQuery(Trimmed(query));
    assert Trimmed(query) == Take(Strip(query), SEARCH_QUERY_MAX);
    hits := Matches(table, q);
    forall r
      ensures multiset(hits)[r] == if Found(query, r) then multiset(table)[r] else 0
    {
      FilterCount(Matching(q), table, r);
    }
    if !(|Trimmed(query)| < 2 || q == "") {
      ResultSize(table, q, ClampLimit(limit), out);
    }
  }

  /** Every search has a result. */
  lemma SearchExists(table: seq<Row>, query: string, limit: int)
    ensures exists out :: SearchPublished(table, query, limit, out)
  {
    var q := NormaliseQuery(Take(Strip(query), SEARCH_QUERY_MAX));
    if |Take(Strip(query), SEARCH_QUERY_MAX)| < 2 || q == "" {
      assert SearchPublished(table, query, limit, []);
    } else {
      TwoStageExists(table, q, ClampLimit(limit));
      var out :| TwoStage(table, q, ClampLimit(limit), out);
      assert SearchPublished(table, query, limit, out);
    }
  }

  function Least(a: int, b: int): int {
    if a < b then a else b
  }

  lemma ResultSize(table: seq<Row>, q: string, limit: nat, out: seq<Row>)
    requires TwoStage(table, q, limit, out)
    ensures |out| == Least(200, Least(limit, |Matches(table, q)|)) && multiset(out) <= multiset(Matches(table, q))
  {
    Survivors(table, q, limit, out);
    var candidates :|
      && CutOf(CandidateOrder(q), Matches(table, q), CANDIDATES_MAX, candidates)
      && CutOf(RankOrder(q), candidates, limit, out);
  }

  /** With at most 200 rows, under the default limit a row comes back if and only if it
      is in the table, published, and hit in one of the three ways. */
  lemma SearchFindsExactly(table: seq<Row>, query: string, out: seq<Row>, r: Row)
    requires SearchPublished(table, query, 250, out) && |table| <= 200
    requires |Trimmed(query)| >= 2 && NormaliseQuery(Trimmed(query)) != ""
    ensures r in out <==>
            && r in table && r.article.status == Published
            && (r.exactHit || r.fuzzyHit || Contains(TitleNormalized(r.article.title), NormaliseQuery(Trimmed(query))))
  {
    var hits := SearchIs(table, query, 250, out);
    FilterLength(Matching(NormaliseQuery(Trimmed(query))), table);
    FewerHits(multiset(hits), multiset(table));
    assert |multiset(hits) - multiset(out)| == 0;
    assert multiset(out)[r] == multiset(hits)[r];
  }

  lemma FewerHits<T>(a: multiset<T>, b: multiset<T>)
    requires a <= b
    ensures |a| <= |b|
  {
    assert b == a + (b - a);
  }

  /** The words of the query that the title's column holds. */
  function WordHits(query: string, r: Row): nat {
    |Filter(w => Contains(TitleNormalized(r.article.title), w), Words(NormaliseQuery(Trimmed(query))))|
  }

  lemma {:induction false} TokenHitsCount(tokens: seq<string>, r: Row)
    ensures TokenHits(tokens, r) == |Filter(w => Contains(TitleNormalized(r.article.title), w), tokens)|
  {
    var p: string -> bool := w => Contains(TitleNormalized(r.article.title), w);
    if tokens != [] {
      TokenHitsCount(tokens[1..], r);
      assert tokens == [tokens[0]] + tokens[1..];
      FilterAppend(p, [tokens[0]], tokens[1..]);
      assert [tokens[0]][..0] == [];
      assert Filter(p, [tokens[0]]) == if p(tokens[0]) then [tokens[0]] else [];
    }
  }

  /** The order of a search's results, criterion by criterion: the normalised query as a
      substring of the column; the number of query words the column holds; 0.65 of the
      exact and 0.35 of the fuzzy score; the fuzzy score; the date, undated last. */
  lemma SearchOrder(table: seq<Row>, query: string, limit: int, out: seq<Row>, i: nat, j: nat)
    requires SearchPublished(table, query, limit, out) && i < j < |out|
    ensures var (a, b, q) := (out[i], out[j], NormaliseQuery(Trimmed(query)));
            var ha := Contains(TitleNormalized(a.article.title), q);
            var hb := Contains(TitleNormalized(b.article.title), q);
            var (sa, sb) := (a.exactScore * 0.65 + a.fuzzyScore * 0.35, b.exactScore * 0.65 + b.fuzzyScore * 0.35);
            && (hb ==> ha)
            && (ha == hb ==> WordHits(query, a) >= WordHits(query, b))
            && (ha == hb && WordHits(query, a) == WordHits(query, b) ==>
                  && sa >= sb
                  && (sa == sb ==>
                        && a.fuzzyScore >= b.fuzzyScore
                        && (a.fuzzyScore == b.fuzzyScore ==>
                              b.article.publishedAt.None? || (a.article.publishedAt.Some?
                              && a.article.publishedAt.value >= b.article.publishedAt.value))))
  {
    var q := NormaliseQuery(Trimmed(query));
    assert Trimmed(query) == Take(Strip(query), SEARCH_QUERY_MAX);
    ResultsLexicographic(table, q, ClampLimit(limit), out, i, j);
    TokensAreTitleWords(Trimmed(query));
    NormalisedWords(Trimmed(query));
    TokenHitsCount(Tokens(q), out[i]);
    TokenHitsCount(Tokens(q), out[j]);
  }

  lemma NormalisedWords(s: string)
    requires NormaliseQuery(s) != ""
    ensures Tokens(NormaliseQuery(s)) == Words(NormaliseQuery(s))
  {
    QueryIdempotent(s);
    TokensAreTitleWords(s);
    QueryIsCollapsedTitle(s);
    CollapseKeepsWords(TitleNormalized(s));
  }

  /** Which matches a search may leave out: under the default limit none that is an exact
      hit while a returned one is not, and among those equal in that none that is a
      substring hit while a returned one is not. */
  lemma SearchDrops(table: seq<Row>, query: string, out: seq<Row>, kept: Row, dropped: Row)
    requires SearchPublished(table, query, 250, out) && kept in out
    requires Found(query, dropped) && multiset(out)[dropped] < multiset(table)[dropped]
    ensures var q := NormaliseQuery(Trimmed(query));
            && (dropped.exactHit ==> kept.exactHit)
            && (dropped.exactHit == kept.exactHit && Contains(TitleNormalized(dropped.article.title), q) ==>
                  Contains(TitleNormalized(kept.article.title), q))
  {
    var q := NormaliseQuery(Trimmed(query));
    assert Trimmed(query) == Take(Strip(query), SEARCH_QUERY_MAX);
    FilterCount(Matching(q), table, dropped);
    assert dropped in Dropped(table, q, out);
    SurvivorsDominate(table, q, 250, out, kept, dropped);
  }

  /** Whatever the query and limit, only published matches come back, at most 200 and
      at most the limit clamped to 1..250; a query under two characters finds nothing. */
  lemma SearchBounded(table: seq<Row>, query: string, limit: int, out: seq<Row>)
    requires SearchPublished(table, query, limit, out)
    ensures |out| <= CANDIDATES_MAX && (limit >= 1 ==> |out| <= limit) && (limit < 1 ==> |out| <= 1)
    ensures forall r :: r in out ==> r in table && r.article.status == Published
    ensures |Strip(query)| < 2 ==> out == []
  {
    var q := NormaliseQuery(Take(Strip(query), SEARCH_QUERY_MAX));
    if out != [] {
      ResultsRanked(table, q, ClampLimit(limit), out);
    }
  }

  function StrongHit(q: string): Row -> bool {
    (r: Row) => r.exactHit || SubstrHit(q, r)
  }

  function HasSubstr(q: string): Row -> bool {
    (r: Row) => SubstrHit(q, r)
  }

  /** Cutting after all strong hits loses no substring hit. */
  lemma CutKeepsSubstr(q: string, rows: seq<Row>, ordered: seq<Row>)
    requires OrderBy(CandidateOrder(q), rows, ordered)
    requires |Filter(StrongHit(q), rows)| <= CANDIDATES_MAX
    ensures multiset(Filter(HasSubstr(q), Take(ordered, CANDIDATES_MAX))) == multiset(Filter(HasSubstr(q), rows))
  {
    var strong := |Filter(StrongHit(q), ordered)|;
    FilterPermutes(StrongHit(q), ordered, rows);
    assert |multiset(Filter(StrongHit(q), ordered))| == |multiset(Filter(StrongHit(q), rows))|;
    FavouredFirst(CandidateOrder(q), StrongHit(q), ordered);
    FilterPermutes(HasSubstr(q), ordered, rows);
    if |ordered| > CANDIDATES_MAX {
      var head, tail := ordered[..CANDIDATES_MAX], ordered[CANDIDATES_MAX..];
      assert ordered == head + tail;
      FilterAppend(HasSubstr(q), head, tail);
      forall i | 0 <= i < |tail|
        ensures !HasSubstr(q)(tail[i])
      {
        assert !StrongHit(q)(ordered[CANDIDATES_MAX + i]);
      }
      FilterNone(HasSubstr(q), tail);
    }
  }

  /** With at most 200 exact or substring hits and the default limit, every
      substring hit is returned, ahead of everything else. */
  lemma SubstrHitsFirst(table: seq<Row>, q: string, out: seq<Row>)
    requires |Filter(StrongHit(q), Matches(table, q))| <= CANDIDATES_MAX
    requires TwoStage(table, q, SEARCH_RESULT_MAX, out)
    ensures var hits := Filter(HasSubstr(q), Matches(table, q));
            && |hits| <= |out|
            && multiset(out[..|hits|]) == multiset(hits)
            && forall i :: |hits| <= i < |out| ==> !SubstrHit(q, out[i])
  {
    var rows := Matches(table, q);
    var ordered, ranked :|
      && OrderBy(CandidateOrder(q), rows, ordered)
      && OrderBy(RankOrder(q), Take(ordered, CANDIDATES_MAX), ranked)
      && out == Take(ranked, SEARCH_RESULT_MAX);
    assert |multiset(ranked)| == |multiset(Take(ordered, CANDIDATES_MAX))|;
    assert out == ranked;
    CutKeepsSubstr(q, rows, ordered);
    FilterPermutes(HasSubstr(q), ranked, Take(ordered, CANDIDATES_MAX));
    var hits := Filter(HasSubstr(q), rows);
    assert |multiset(Filter(HasSubstr(q), ranked))| == |multiset(hits)|;
    FavouredFirst(RankOrder(q), HasSubstr(q), ranked);
  }
}
