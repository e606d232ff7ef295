/** The normalisers every written field goes through: coerce, cap, drop, de-duplicate.

    Each list normaliser is a loop that stops at its cap; each is proved equal to a
    comprehension that ignores the cap until the end. Trimming happens before the
    cut, so a cut can leave whitespace at the end of a stored text. */
module Payload {
  import opened Outcomes
  import opened Sequences
  import opened Text
  import opened Articles

  const COVER_IMAGE_URL_MAX := 2048
  const FAQ_MAX_ITEMS := 30
  const FAQ_QUESTION_MAX := 300
  const FAQ_ANSWER_MAX := 1500
  const LINKS_MAX := 24
  const LINK_CTA_MAX := 60
  const LINK_URL_MAX := 2048
  const META_TITLE_MAX := 60
  const META_DESCRIPTION_MAX := 160
  const SEARCH_KEYWORD_MAX_ITEMS := 24
  const SEARCH_KEYWORD_ITEM_MAX := 80
  const URL_TITLE_LIST_MAX := 20
  const URL_TITLE_TITLE_MAX := 200

  /** Stands for `valid_http_url`: the canonical form of an http(s) URL, or nothing. */
  type Canon = string -> Option<string>

  /** No URL is empty. */
  ghost predicate ValidUrls(canon: Canon) {
    canon("") == None && forall s :: ValidAt(canon, s)
  }

  predicate ValidAt(canon: Canon, s: string) {
    canon(s) != Some("")
  }

  datatype KeywordInput = KeywordList(items: seq<string>) | KeywordText(text: string) | OtherKeywords
  datatype FaqInput = FaqDict(question: string, answer: string) | OtherFaq
  datatype LinkInput = LinkDict(cta: string, url: string) | OtherLink
  datatype MediaInput = MediaUrl(text: string) | MediaDict(url: string, link: string, title: string) | OtherMedia

  // ---- One item ------------------------------------------------------------

  function KeywordOf(item: string): Option<string> {
    var collapsed := Lower(Collapse(item));
    if collapsed == "" then None else Some(Take(collapsed, SEARCH_KEYWORD_ITEM_MAX))
  }

  function FaqOf(item: FaqInput): Option<Faq> {
    match item
    case OtherFaq => None
    case FaqDict(q, a) =>
      var question := Take(Collapse(q), FAQ_QUESTION_MAX);
      var answer := Take(Strip(a), FAQ_ANSWER_MAX);
      if question == "" || answer == "" then None else Some(Faq(question, answer))
  }

  function CtaOf(cta: string): string {
    var capped := Take(Strip(cta), LINK_CTA_MAX);
    if capped == "" then "View" else capped
  }

  function LinkOf(canon: Canon): LinkInput -> Option<Link> {
    (item: LinkInput) =>
      match item
      case OtherLink => None
      case LinkDict(cta, url) =>
        match canon(url)
        case None => None
        case Some(safe) => Some(Link(CtaOf(cta), Take(safe, LINK_URL_MAX)))
  }

  function RawMediaUrl(item: MediaInput): string {
    match item
    case MediaUrl(text) => text
    case MediaDict(url, link, _) => if url != "" then url else link
    case OtherMedia => ""
  }

  function RawMediaTitle(item: MediaInput): string {
    if item.MediaDict? then item.title else ""
  }

  function MediaOf(canon: Canon): MediaInput -> Option<Media> {
    (item: MediaInput) =>
      match canon(RawMediaUrl(item))
      case None => None
      case Some(safe) => Some(Media(safe, Take(Strip(RawMediaTitle(item)), URL_TITLE_TITLE_MAX)))
  }

  // ---- Whole values ----------------------------------------------------------

  function RawKeywords(value: KeywordInput): seq<string> {
    match value
    case KeywordList(items) => items
    case KeywordText(text) => SplitOn(text, ',')
    case OtherKeywords => []
  }

  /** Keeps the first of equal values. */
  function Dedup(s: seq<string>): seq<string> {
    if s == [] then []
    else
      var kept := Dedup(s[..|s| - 1]);
      if s[|s| - 1] in kept then kept else kept + [s[|s| - 1]]
  }

  /** The distinct keywords of a list of raw items. */
  function DistinctKeywords(raw: seq<string>): seq<string> {
    Dedup(FilterMap(KeywordOf, raw))
  }

  function SearchKeywords(value: KeywordInput): seq<string> {
    Take(DistinctKeywords(RawKeywords(value)), SEARCH_KEYWORD_MAX_ITEMS)
  }

  /** The FAQs of a list of raw items, before the cap. */
  function AllFaqs(items: seq<FaqInput>): seq<Faq> {
    FilterMap(FaqOf, items)
  }

  function FaqList(value: Option<seq<FaqInput>>): seq<Faq> {
    if value.None? then [] else Take(AllFaqs(value.value), FAQ_MAX_ITEMS)
  }

  function LinkList(canon: Canon, value: Option<seq<LinkInput>>): seq<Link> {
    if value.None? then [] else Take(FilterMap(LinkOf(canon), value.value), LINKS_MAX)
  }

  function MediaList(canon: Canon, value: Option<seq<MediaInput>>): seq<Media> {
    if value.None? then [] else Take(FilterMap(MediaOf(canon), value.value), URL_TITLE_LIST_MAX)
  }

  function Meta(value: string, cap: nat): Option<string> {
    var collapsed := Collapse(value);
    if collapsed == "" then None else Some(Take(collapsed, cap))
  }

  function OrEmpty(value: Option<string>): string {
    if value.Some? then value.value else ""
  }

  function MetaTitle(value: Option<string>): Option<string> {
    Meta(OrEmpty(value), META_TITLE_MAX)
  }

  function MetaDescription(value: Option<string>): Option<string> {
    Meta(OrEmpty(value), META_DESCRIPTION_MAX)
  }

  function CoverUrl(canon: Canon, value: Option<string>): Option<string> {
    match canon(OrEmpty(value))
    case None => None
    case Some(safe) => Some(Take(safe, COVER_IMAGE_URL_MAX))
  }

  // ---- The loops -------------------------------------------------------------

  method NormaliseSearchKeyword(value: KeywordInput) returns (out: seq<string>)
    ensures out == SearchKeywords(value)
  {
    var raw: seq<string>;
    match value {
      case KeywordList(items) => raw := items;
      case KeywordText(text) => raw := SplitOn(text, ',');
      case OtherKeywords => return [];
    }
    var seen: set<string> := {};
    out := [];
    var i := 0;
    while i < |raw|
      invariant 0 <= i <= |raw|
      invariant out == DistinctKeywords(raw[..i])
      invariant |out| < SEARCH_KEYWORD_MAX_ITEMS
      invariant seen == Members(out)
    {
      var keyword := KeywordOf(raw[i]);
      KeywordStep(raw, i);
      if keyword.Some? {
        var capped := keyword.value;
        if capped !in seen {
          MembersAppend(out, capped);
          seen := seen + {capped};
          out := out + [capped];
          if |out| >= SEARCH_KEYWORD_MAX_ITEMS {
            EnoughKeywords(raw, i + 1, out);
            return;
          }
        }
      }
      i := i + 1;
    }
    assert raw[..|raw|] == raw;
  }

  /** One more item: kept if it is an object with a question and an answer. */
  lemma FaqStep(items: seq<FaqInput>, i: nat)
    requires i < |items|
    ensures AllFaqs(items[..i + 1]) ==
            AllFaqs(items[..i]) +
              match items[i] {
                case OtherFaq => []
                case FaqDict(q, a) =>
                  var (question, answer) := (Take(Collapse(q), FAQ_QUESTION_MAX), Take(Strip(a), FAQ_ANSWER_MAX));
                  if question == "" || answer == "" then [] else [Faq(question, answer)]
              }
  {
    FilterMapStep(FaqOf, items, i);
  }

  lemma EnoughFaqs(items: seq<FaqInput>, n: nat, out: seq<Faq>)
    requires n <= |items| && |out| == FAQ_MAX_ITEMS && out == AllFaqs(items[..n])
    ensures Take(AllFaqs(items), FAQ_MAX_ITEMS) == out
  {
    FilterMapPrefix(FaqOf, items, n);
  }

  method NormaliseFaqList(value: Option<seq<FaqInput>>) returns (out: seq<Faq>)
    ensures out == FaqList(value)
  {
    out := [];
    if value.None? {
      return;
    }
    var items := value.value;
    var i := 0;
    while i < |items|
      invariant 0 <= i <= |items|
      invariant out == AllFaqs(items[..i])
      invariant |out| < FAQ_MAX_ITEMS
    {
      FaqStep(items, i);
      if items[i].FaqDict? {
        var question := Take(Collapse(items[i].question), FAQ_QUESTION_MAX);
        var answer := Take(Strip(items[i].answer), FAQ_ANSWER_MAX);
        if question != "" && answer != "" {
          out := out + [Faq(question, answer)];
          if |out| >= FAQ_MAX_ITEMS {
            EnoughFaqs(items, i + 1, out);
            return;
          }
        }
      }
      i := i + 1;
    }
    assert items[..|items|] == items;
  }

  method NormaliseArticleLinks(canon: Canon, value: Option<seq<LinkInput>>) returns (out: seq<Link>)
    ensures out == LinkList(canon, value)
  {
    out := [];
    if value.None? {
      return;
    }
    var items := value.value;
    var i := 0;
    while i < |items|
      invariant 0 <= i <= |items|
      invariant out == FilterMap(LinkOf(canon), items[..i])
      invariant |out| < LINKS_MAX
    {
      FilterMapStep(LinkOf(canon), items, i);
      if items[i].LinkDict? {
        var safe := canon(items[i].url);
        if safe.Some? {
          var cta := Take(Strip(items[i].cta), LINK_CTA_MAX);
          if cta == "" {
            cta := "View";
          }
          out := out + [Link(cta, Take(safe.value, LINK_URL_MAX))];
          if |out| >= LINKS_MAX {
            FilterMapPrefix(LinkOf(canon), items, i + 1);
            return;
          }
        }
      }
      i := i + 1;
    }
    assert items[..|items|] == items;
  }

  method NormaliseUrlTitleList(canon: Canon, value: Option<seq<MediaInput>>) returns (out: seq<Media>)
    ensures out == MediaList(canon, value)
  {
    out := [];
    if value.None? {
      return;
    }
    var items := value.value;
    var i := 0;
    while i < |items|
      invariant 0 <= i <= |items|
      invariant out == FilterMap(MediaOf(canon), items[..i])
      invariant |out| < URL_TITLE_LIST_MAX
    {
      FilterMapStep(MediaOf(canon), items, i);
      var raw, title := "", "";
      match items[i] {
        case MediaUrl(text) => raw := text;
        case MediaDict(url, link, t) => raw, title := if url != "" then url else link, t;
        case OtherMedia =>
      }
      assert raw == RawMediaUrl(items[i]) && title == RawMediaTitle(items[i]);
      var safe := canon(raw);
      if safe.Some? {
        out := out + [Media(safe.value, Take(Strip(title), URL_TITLE_TITLE_MAX))];
        if |out| >= URL_TITLE_LIST_MAX {
          FilterMapPrefix(MediaOf(canon), items, i + 1);
          return;
        }
      }
      i := i + 1;
    }
    assert items[..|items|] == items;
  }

  // ---- De-duplication ----------------------------------------------------------

  lemma {:induction false} DedupPrefix(s: seq<string>, n: nat)
    requires n <= |s|
    ensures Dedup(s[..n]) <= Dedup(s)
  {
    if n == |s| {
      assert s[..n] == s;
    } else {
      DedupPrefix(s[..|s| - 1], n);
      assert s[..|s| - 1][..n] == s[..n];
    }
  }

  lemma DedupOfPrefix(s: seq<string>, t: seq<string>)
    requires s <= t
    ensures Dedup(s) <= Dedup(t)
  {
    assert t[..|s|] == s;
    DedupPrefix(t, |s|);
  }

  /** Once the cap is reached, the items not yet looked at do not matter. */
  lemma EnoughKeywords(raw: seq<string>, n: nat, out: seq<string>)
    requires n <= |raw| && |out| == SEARCH_KEYWORD_MAX_ITEMS
    requires out == DistinctKeywords(raw[..n])
    ensures Take(DistinctKeywords(raw), SEARCH_KEYWORD_MAX_ITEMS) == out
  {
    FilterMapPrefix(KeywordOf, raw, n);
    DedupOfPrefix(FilterMap(KeywordOf, raw[..n]), FilterMap(KeywordOf, raw));
  }

  function Members(s: seq<string>): set<string> {
    set x | x in s
  }

  lemma MembersAppend(s: seq<string>, x: string)
    ensures Members(s + [x]) == Members(s) + {x}
  {
  }

  /** One more item either adds its keyword at the end or changes nothing. */
  lemma KeywordStep(raw: seq<string>, i: nat)
    requires i < |raw|
    ensures var before := DistinctKeywords(raw[..i]);
            DistinctKeywords(raw[..i + 1]) ==
              match KeywordOf(raw[i]) {
                case None => before
                case Some(keyword) => if keyword in before then before else before + [keyword]
              }
  {
    FilterMapStep(KeywordOf, raw, i);
    if KeywordOf(raw[i]).Some? {
      DedupStep(FilterMap(KeywordOf, raw[..i]), KeywordOf(raw[i]).value);
    }
  }

  lemma DedupStep(s: seq<string>, x: string)
    ensures Dedup(s + [x]) == if x in Dedup(s) then Dedup(s) else Dedup(s) + [x]
  {
    assert (s + [x])[..|s|] == s;
  }

  /** Where a value first occurs. */
  function FirstIndex(s: seq<string>, x: string): (i: nat)
    requires x in s
    ensures i < |s| && s[i] == x && x !in s[..i]
  {
    if s[0] == x then 0 else 1 + FirstIndex(s[1..], x)
  }

  lemma FirstIndexUnique(s: seq<string>, x: string, i: nat)
    requires i < |s| && s[i] == x && x !in s[..i]
    ensures FirstIndex(s, x) == i
  {
    var j := FirstIndex(s, x);
    if j < i {
      assert false;
    } else if i < j {
      assert false;
    }
  }

  /** The kept values are the values, each once, ordered by where they first occur. */
  lemma {:induction false} DedupFirstOccurrences(s: seq<string>)
    ensures Distinct(Dedup(s))
    ensures forall x :: x in Dedup(s) <==> x in s
    ensures forall i, j :: 0 <= i < j < |Dedup(s)| ==> FirstIndex(s, Dedup(s)[i]) < FirstIndex(s, Dedup(s)[j])
    ensures |Dedup(s)| <= |s|
  {
    if s != [] {
      var n := |s| - 1;
      var front := s[..n];
      DedupFirstOccurrences(front);
      assert s == front + [s[n]];
      forall x | x in front
        ensures FirstIndex(s, x) == FirstIndex(front, x)
      {
        var i := FirstIndex(front, x);
        assert s[..i] == front[..i];
        FirstIndexUnique(s, x, i);
      }
      if s[n] !in front {
        FirstIndexUnique(s, s[n], n);
      }
    }
  }

  lemma {:induction false} DedupFixes(s: seq<string>)
    requires Distinct(s)
    ensures Dedup(s) == s
  {
    if s != [] {
      var n := |s| - 1;
      DedupFixes(s[..n]);
      assert s == s[..n] + [s[n]];
    }
  }

  /** The keyword loop returns the first 24 distinct normalised items, in first-occurrence order. */
  lemma KeywordsAreFirstDistinct(value: KeywordInput)
    ensures var all := FilterMap(KeywordOf, RawKeywords(value));
            var out := SearchKeywords(value);
            && Distinct(out)
            && (forall x :: x in out ==> x in all)
            && (forall i, j :: 0 <= i < j < |out| ==> FirstIndex(all, out[i]) < FirstIndex(all, out[j]))
            && (forall x :: x in all && x !in out ==>
                  |out| == SEARCH_KEYWORD_MAX_ITEMS && forall y :: y in out ==> FirstIndex(all, y) < FirstIndex(all, x))
  {
    var all := FilterMap(KeywordOf, RawKeywords(value));
    var every := Dedup(all);
    var out := SearchKeywords(value);
    DedupFirstOccurrences(all);
    forall x | x in all && x !in out
      ensures |out| == SEARCH_KEYWORD_MAX_ITEMS && forall y :: y in out ==> FirstIndex(all, y) < FirstIndex(all, x)
    {
      assert x in every;
      var j :| 0 <= j < |every| && every[j] == x;
      assert j >= SEARCH_KEYWORD_MAX_ITEMS;
      forall y | y in out
        ensures FirstIndex(all, y) < FirstIndex(all, x)
      {
        var i :| 0 <= i < |out| && out[i] == y;
        assert every[i] == y;
      }
    }
  }
}
