/** The search query normaliser against the stored `title_normalized` column. */
module Query {
  import opened Text

  predicate KeptInTitle(c: char) {
    'a' <= c <= 'z' || 'A' <= c <= 'Z' || '0' <= c <= '9' || c == ' '
  }

  predicate KeptInQuery(c: char) {
    'a' <= c <= 'z' || '0' <= c <= '9' || c == ' '
  }

  /** Each run of characters that are not kept becomes one space. */
  function Blank(kept: char -> bool, s: string): string {
    if s == "" then ""
    else if kept(s[0]) then [s[0]] + Blank(kept, s[1..])
    else if |s| > 1 && !kept(s[1]) then Blank(kept, s[1..])
    else " " + Blank(kept, s[1..])
  }

  /** The generated column: blank out, then lower-case. */
  function TitleNormalized(title: string): string {
    Lower(Blank(KeptInTitle, title))
  }

  /** The service: lower-case, then blank out, then collapse. */
  function NormaliseQuery(query: string): string {
    Collapse(Blank(KeptInQuery, Lower(query)))
  }

  function Tokens(normalized: string): seq<string> {
    SplitOn(normalized, ' ')
  }

  /** SQL's `haystack LIKE '%' || needle || '%'` for a needle without wildcards. */
  predicate Contains(haystack: string, needle: string) {
    exists i | 0 <= i <= |haystack| :: OccursAt(haystack, needle, i)
  }

  predicate OccursAt(haystack: string, needle: string, i: nat) {
    i + |needle| <= |haystack| && haystack[i..i + |needle|] == needle
  }

  // ---- Words ------------------------------------------------------------------

  /** Length of the leading run of non-space characters. */
  function RunLength(s: string): (n: nat)
    ensures n <= |s| && (n < |s| ==> IsSpace(s[n])) && forall i :: 0 <= i < n ==> !IsSpace(s[i])
  {
    if s == "" || IsSpace(s[0]) then 0 else 1 + RunLength(s[1..])
  }

  /** The maximal runs of non-space characters, in order. */
  function Words(s: string): seq<string>
    decreases |s|
  {
    if s == "" then []
    else if IsSpace(s[0]) then Words(s[1..])
    else [s[..RunLength(s)]] + Words(s[RunLength(s)..])
  }

  function Join(words: seq<string>): string {
    if words == [] then ""
    else if |words| == 1 then words[0]
    else words[0] + " " + Join(words[1..])
  }

  predicate IsWord(w: string) {
    w != "" && forall i :: 0 <= i < |w| ==> !IsSpace(w[i])
  }

  lemma {:induction false} WordsAreWords(s: string)
    ensures forall w :: w in Words(s) ==> IsWord(w) && Contains(s, w)
    decreases |s|
  {
    if s == "" {
    } else if IsSpace(s[0]) {
      WordsAreWords(s[1..]);
      forall w | w in Words(s[1..])
        ensures Contains(s, w)
      {
        ContainsAfter(s, 1, w);
      }
    } else {
      var n := RunLength(s);
      WordsAreWords(s[n..]);
      assert OccursAt(s, s[..n], 0);
      forall w | w in Words(s[n..])
        ensures Contains(s, w)
      {
        ContainsAfter(s, n, w);
      }
    }
  }

  lemma ContainsAfter(s: string, n: nat, w: string)
    requires n <= |s| && Contains(s[n..], w)
    ensures Contains(s, w)
  {
    var i :| 0 <= i <= |s[n..]| && OccursAt(s[n..], w, i);
    assert OccursAt(s, w, n + i);
  }

  lemma {:induction false} WordsOfLStrip(s: string)
    ensures Words(LStrip(s)) == Words(s)
  {
    if StartsInSpace(s) {
      WordsOfLStrip(s[1..]);
    }
  }

  lemma {:induction false} SqueezeRun(s: string, n: nat)
    requires n <= |s| && forall i :: 0 <= i < n ==> !IsSpace(s[i])
    ensures Squeeze(s) == s[..n] + Squeeze(s[n..])
  {
    if n > 0 {
      SqueezeRun(s[1..], n - 1);
      assert s[1..][n - 1..] == s[n..];
      assert s[..n] == [s[0]] + s[1..][..n - 1];
    }
  }

  lemma {:induction false} SqueezeSpaced(s: string)
    requires StartsInSpace(s)
    ensures Squeeze(s) == " " + Squeeze(LStrip(s))
  {
    if |s| > 1 && IsSpace(s[1]) {
      SqueezeSpaced(s[1..]);
    } else {
      assert LStrip(s) == s[1..];
    }
  }

  lemma {:induction false} RStripAppend(a: string, b: string)
    ensures RStrip(b) != "" ==> RStrip(a + b) == a + RStrip(b)
    ensures RStrip(b) == "" ==> RStrip(a + b) == RStrip(a)
  {
    if b == "" {
      assert a + b == a;
    } else if IsSpace(b[|b| - 1]) {
      RStripAppend(a, b[..|b| - 1]);
      assert (a + b)[..|a + b| - 1] == a + b[..|b| - 1];
    }
  }

  lemma RStripSpaced(t: string)
    ensures RStrip(" " + t) == if RStrip(t) == "" then "" else " " + RStrip(t)
  {
    RStripAppend(" ", t);
    assert " "[..0] == "";
  }

  lemma RStripSolid(s: string)
    requires !EndsInSpace(s)
    ensures RStrip(s) == s
  {
  }

  /** Collapsing and re-joining the words are the same thing. */
  lemma {:induction false} SqueezeWords(s: string)
    requires !StartsInSpace(s)
    ensures RStrip(Squeeze(s)) == Join(Words(s))
    decreases |s|
  {
    if s != "" {
      var n := RunLength(s);
      var run, rest := s[..n], s[n..];
      SqueezeRun(s, n);
      RStripSolid(run);
      RStripAppend(run, Squeeze(rest));
      if rest != "" {
        SqueezeSpaced(rest);
        var tail := LStrip(rest);
        LStripShape(rest);
        SqueezeWords(tail);
        WordsOfLStrip(rest);
        WordsAreWords(tail);
        RStripSpaced(Squeeze(tail));
        JoinEmpty(Words(tail));
        assert Words(s) == [run] + Words(tail);
      }
    }
  }

  lemma JoinEmpty(words: seq<string>)
    requires forall w :: w in words ==> IsWord(w)
    ensures Join(words) == "" <==> words == []
  {
    if words != [] {
      assert words[0] in words;
    }
  }

  lemma CollapseIsJoin(s: string)
    ensures Collapse(s) == Join(Words(s))
  {
    LStripShape(s);
    SqueezeWords(LStrip(s));
    WordsOfLStrip(s);
    if StartsInSpace(s) {
      SqueezeSpaced(s);
    }
    SqueezeStart(LStrip(s));
    assert LStrip(Squeeze(s)) == Squeeze(LStrip(s));
  }

  /** Collapsing keeps the words. */
  lemma CollapseKeepsWords(s: string)
    ensures Words(Collapse(s)) == Words(s)
  {
    CollapseIsJoin(s);
    WordsAreWords(s);
    WordsOfJoin(Words(s));
  }

  lemma {:induction false} WordsOfJoin(words: seq<string>)
    requires forall w :: w in words ==> IsWord(w)
    ensures Words(Join(words)) == words
  {
    if words != [] {
      var w, text := words[0], Join(words);
      assert IsWord(w);
      WordsOfJoin(words[1..]);
      var rest := if |words| == 1 then "" else " " + Join(words[1..]);
      assert text == w + rest;
      RunOf(text, |w|);
      assert text[..|w|] == w && text[|w|..] == rest;
      if |words| > 1 {
        assert rest[1..] == Join(words[1..]);
      }
    }
  }

  lemma SqueezeStart(s: string)
    requires !StartsInSpace(s)
    ensures !StartsInSpace(Squeeze(s)) && LStrip(Squeeze(s)) == Squeeze(s)
  {
  }

  lemma {:induction false} SplitWord(w: string, rest: string)
    requires IsWord(w)
    ensures SplitOn(w, ' ') == [w]
    ensures SplitOn(w + " " + rest, ' ') == [w] + SplitOn(rest, ' ')
  {
    var all := w + " " + rest;
    if |w| > 1 {
      SplitWord(w[1..], rest);
      assert all[1..] == w[1..] + " " + rest;
    } else {
      assert all[1..] == " " + rest;
      assert all[1..][1..] == rest;
      assert w[1..] == "";
    }
    assert w == [w[0]] + w[1..];
  }

  lemma {:induction false} SplitJoin(words: seq<string>)
    requires words != [] && forall w :: w in words ==> IsWord(w)
    ensures SplitOn(Join(words), ' ') == words
  {
    if |words| == 1 {
      SplitWord(words[0], "");
    } else {
      SplitJoin(words[1..]);
      SplitWord(words[0], Join(words[1..]));
    }
  }

  // ---- Query and column -------------------------------------------------------

  lemma {:induction false} BlankLower(s: string)
    ensures Blank(KeptInQuery, Lower(s)) == Lower(Blank(KeptInTitle, s))
  {
    if s != "" {
      BlankLower(s[1..]);
      LowerAt(s);
      assert Lower(s)[1..] == Lower(s[1..]);
    }
  }

  /** Letters, digits and spaces stay in the column, letters lower-cased. */
  lemma ColumnKeeps(s: string)
    requires forall c :: c in s ==> 'a' <= c <= 'z' || 'A' <= c <= 'Z' || '0' <= c <= '9' || c == ' '
    ensures TitleNormalized(s) == Lower(s)
  {
    BlankKeeps(s);
  }

  lemma {:induction false} BlankKeeps(s: string)
    requires forall c :: c in s ==> KeptInTitle(c)
    ensures Blank(KeptInTitle, s) == s
  {
    if s != "" {
      assert s[0] in s;
      BlankKeeps(s[1..]);
    }
  }

  /** Each run of other characters, between two stretches that it does not touch, becomes one space. */
  lemma ColumnBlanks(a: string, other: string, b: string)
    requires other != "" && forall c :: c in other ==>
               !('a' <= c <= 'z' || 'A' <= c <= 'Z' || '0' <= c <= '9' || c == ' ')
    requires a == "" || (var c := a[|a| - 1]; 'a' <= c <= 'z' || 'A' <= c <= 'Z' || '0' <= c <= '9' || c == ' ')
    requires b == "" || (var c := b[0]; 'a' <= c <= 'z' || 'A' <= c <= 'Z' || '0' <= c <= '9' || c == ' ')
    ensures TitleNormalized(a + other + b) == TitleNormalized(a) + " " + TitleNormalized(b)
  {
    BlankJoins(a, other, b);
    var x, y := Blank(KeptInTitle, a), Blank(KeptInTitle, b);
    LowerAppend(x + " ", y);
    LowerAppend(x, " ");
    assert Lower(" ") == " ";
  }

  lemma BlankJoins(a: string, other: string, b: string)
    requires other != "" && forall c :: c in other ==> !KeptInTitle(c)
    requires (a == "" || KeptInTitle(a[|a| - 1])) && (b == "" || KeptInTitle(b[0]))
    ensures Blank(KeptInTitle, a + other + b) == Blank(KeptInTitle, a) + " " + Blank(KeptInTitle, b)
  {
    assert other[0] in other;
    BlankOther(other, b);
    BlankAfter(a, other + b);
    assert a + other + b == a + (other + b);
  }

  lemma {:induction false} BlankOther(other: string, b: string)
    requires other != "" && (forall c :: c in other ==> !KeptInTitle(c)) && (b == "" || KeptInTitle(b[0]))
    ensures Blank(KeptInTitle, other + b) == " " + Blank(KeptInTitle, b)
  {
    assert other[0] in other;
    assert (other + b)[1..] == other[1..] + b;
    if |other| > 1 {
      assert other[1] in other;
      BlankOther(other[1..], b);
    } else {
      assert other[1..] + b == b;
    }
  }

  lemma {:induction false} BlankAfter(a: string, t: string)
    requires (a == "" || KeptInTitle(a[|a| - 1])) && (t == "" || !KeptInTitle(t[0]))
    ensures Blank(KeptInTitle, a + t) == Blank(KeptInTitle, a) + Blank(KeptInTitle, t)
  {
    if a == "" {
      assert a + t == t;
    } else {
      assert (a + t)[1..] == a[1..] + t;
      BlankAfter(a[1..], t);
    }
  }

  lemma {:induction false} LowerAppend(s: string, t: string)
    ensures Lower(s + t) == Lower(s) + Lower(t)
  {
    if s == "" {
      assert s + t == t;
    } else {
      LowerAppend(s[1..], t);
      assert (s + t)[1..] == s[1..] + t && (s + t)[0] == s[0];
      assert Lower(s + t) == [LowerChar(s[0])] + (Lower(s[1..]) + Lower(t));
    }
  }

  /** The normalised query is the stored column with its spacing collapsed. */
  lemma QueryIsCollapsedTitle(s: string)
    ensures NormaliseQuery(s) == Collapse(TitleNormalized(s))
  {
    BlankLower(s);
  }

  lemma {:induction false} BlankKept(s: string)
    ensures forall i :: 0 <= i < |Blank(KeptInQuery, s)| ==> KeptInQuery(Blank(KeptInQuery, s)[i])
    ensures (forall i :: 0 <= i < |s| ==> KeptInQuery(s[i])) ==> Blank(KeptInQuery, s) == s
  {
    if s != "" {
      BlankKept(s[1..]);
      assert s == [s[0]] + s[1..];
    }
  }

  lemma {:induction false} SqueezeKept(s: string)
    requires forall i :: 0 <= i < |s| ==> KeptInQuery(s[i])
    ensures forall i :: 0 <= i < |Squeeze(s)| ==> KeptInQuery(Squeeze(s)[i])
  {
    if s != "" {
      SqueezeKept(s[1..]);
    }
  }

  lemma QueryAlphabet(s: string)
    ensures forall i :: 0 <= i < |NormaliseQuery(s)| ==> KeptInQuery(NormaliseQuery(s)[i])
  {
    var b := Blank(KeptInQuery, Lower(s));
    BlankKept(Lower(s));
    SqueezeKept(b);
    LStripShape(Squeeze(b));
    RStripShape(LStrip(Squeeze(b)));
  }

  lemma QueryIdempotent(s: string)
    ensures NormaliseQuery(NormaliseQuery(s)) == NormaliseQuery(s)
  {
    var q := NormaliseQuery(s);
    QueryAlphabet(s);
    CollapseShape(Blank(KeptInQuery, Lower(s)));
    LowerFixes(q);
    BlankKept(q);
    CollapseTidy(q);
  }

  /** The tokens of a non-empty query are exactly the words of the column, so none
      is empty and joining them gives the query back; each occurs in the column. */
  lemma TokensAreTitleWords(s: string)
    requires NormaliseQuery(s) != ""
    ensures Tokens(NormaliseQuery(s)) == Words(TitleNormalized(s))
    ensures Join(Tokens(NormaliseQuery(s))) == NormaliseQuery(s)
    ensures forall t :: t in Tokens(NormaliseQuery(s)) ==> IsWord(t) && Contains(TitleNormalized(s), t)
  {
    var column := TitleNormalized(s);
    QueryIsCollapsedTitle(s);
    CollapseIsJoin(column);
    WordsAreWords(column);
    SplitJoin(Words(column));
  }

  // ---- When a title matches itself as a substring ------------------------------

  function Solid(s: string): nat {
    if s == "" then 0 else (if IsSpace(s[0]) then 0 else 1) + Solid(s[1..])
  }

  lemma {:induction false} SolidAppend(a: string, b: string)
    ensures Solid(a + b) == Solid(a) + Solid(b)
  {
    if a == "" {
      assert a + b == b;
    } else {
      SolidAppend(a[1..], b);
      assert (a + b)[1..] == a[1..] + b;
    }
  }

  lemma {:induction false} SolidSqueeze(s: string)
    ensures Solid(Squeeze(s)) == Solid(s)
  {
    if s != "" {
      SolidSqueeze(s[1..]);
      assert ([s[0]] + Squeeze(s[1..]))[1..] == Squeeze(s[1..]);
      assert (" " + Squeeze(s[1..]))[1..] == Squeeze(s[1..]);
    }
  }

  lemma {:induction false} SolidStrips(s: string)
    ensures Solid(LStrip(s)) == Solid(s) && Solid(RStrip(s)) == Solid(s)
    decreases |s|
  {
    if StartsInSpace(s) {
      SolidStrips(s[1..]);
    }
    if EndsInSpace(s) {
      var n := |s| - 1;
      SolidStrips(s[..n]);
      SolidAppend(s[..n], s[n..]);
      assert s == s[..n] + s[n..];
      assert s[n..][1..] == "";
    }
  }

  lemma {:induction false} HollowLStrip(a: string, b: string)
    requires Solid(a) == 0
    ensures LStrip(a + b) == LStrip(b)
  {
    if a == "" {
      assert a + b == b;
    } else {
      HollowLStrip(a[1..], b);
      assert (a + b)[1..] == a[1..] + b;
    }
  }

  lemma {:induction false} HollowRStrip(a: string)
    requires Solid(a) == 0
    ensures RStrip(a) == ""
  {
    RStripShape(a);
    SolidStrips(a);
    var r := RStrip(a);
    if r != "" {
      var n := |r| - 1;
      assert r == r[..n] + r[n..];
      SolidAppend(r[..n], r[n..]);
    }
  }

  /** Padding a text that is clean at both ends with spaces and stripping gives it back. */
  lemma StripPadded(a: string, c: string, b: string)
    requires Solid(a) == 0 && Solid(b) == 0 && !StartsInSpace(c) && !EndsInSpace(c)
    ensures Strip(a + c + b) == c
  {
    assert a + c + b == a + (c + b);
    HollowLStrip(a, c + b);
    HollowRStrip(b);
    if c == "" {
      assert c + b == b;
      SolidStrips(b);
      HollowRStrip(LStrip(b));
    } else {
      assert LStrip(c + b) == c + b;
      RStripAppend(c, b);
      RStripSolid(c);
    }
  }

  lemma OccurrenceIsStrip(column: string)
    requires Contains(column, Collapse(column))
    ensures Strip(column) == Collapse(column)
  {
    var query := Collapse(column);
    CollapseShape(column);
    var i :| 0 <= i <= |column| && OccursAt(column, query, i);
    var a, b := column[..i], column[i + |query|..];
    assert column == a + query + b;
    SolidSqueeze(column);
    SolidStrips(Squeeze(column));
    SolidStrips(LStrip(Squeeze(column)));
    SolidAppend(a + query, b);
    SolidAppend(a, query);
    StripPadded(a, query, b);
  }

  lemma TidyStripIsCollapse(column: string)
    requires Tidy(Strip(column))
    ensures Strip(column) == Collapse(column)
  {
    StripShape(column);
    CollapseTidy(Strip(column));
    CollapseIsJoin(column);
    CollapseIsJoin(Strip(column));
    WordsOfStrip(column);
  }

  lemma StripOccurs(s: string)
    ensures Contains(s, Strip(s))
  {
    LStripShape(s);
    RStripShape(LStrip(s));
    assert OccursAt(s, Strip(s), |s| - |LStrip(s)|);
  }

  /** A title contains its own normalised query as a substring exactly when its
      stripped column has no two spaces in a row. */
  lemma OwnQueryOccurs(s: string)
    ensures Contains(TitleNormalized(s), NormaliseQuery(s)) <==> Tidy(Strip(TitleNormalized(s)))
  {
    var column := TitleNormalized(s);
    QueryIsCollapsedTitle(s);
    if Contains(column, Collapse(column)) {
      OccurrenceIsStrip(column);
      CollapseShape(column);
    }
    if Tidy(Strip(column)) {
      TidyStripIsCollapse(column);
      StripOccurs(column);
    }
  }

  lemma {:induction false} WordsOfRStrip(s: string)
    ensures Words(RStrip(s)) == Words(s)
    decreases |s|
  {
    if s == "" {
    } else if IsSpace(s[0]) {
      WordsOfRStrip(s[1..]);
      RStripAppend([s[0]], s[1..]);
      assert s == [s[0]] + s[1..];
      if RStrip(s[1..]) == "" {
        assert RStrip([s[0]]) == "";
      }
    } else {
      var n := RunLength(s);
      WordsOfRStrip(s[n..]);
      RStripAppend(s[..n], s[n..]);
      RStripSolid(s[..n]);
      assert s == s[..n] + s[n..];
      var r := RStrip(s);
      RStripShape(s[n..]);
      assert r == s[..n] + RStrip(s[n..]);
      RunOf(r, n);
      assert r[..n] == s[..n] && r[n..] == RStrip(s[n..]);
    }
  }

  lemma {:induction false} RunOf(s: string, n: nat)
    requires n <= |s| && (n < |s| ==> IsSpace(s[n])) && forall i :: 0 <= i < n ==> !IsSpace(s[i])
    ensures RunLength(s) == n
  {
  }

  lemma WordsOfStrip(s: string)
    ensures Words(Strip(s)) == Words(s)
  {
    WordsOfLStrip(s);
    WordsOfRStrip(LStrip(s));
  }

  /** `a-b` is stored as `a b`, but `a -b` is stored with two spaces, which does
      not contain the query `a b`. */
  lemma OwnQueryCanMiss()
    ensures !Contains(TitleNormalized("a -b"), NormaliseQuery("a -b"))
  {
    OwnQueryOccurs("a -b");
    var column := TitleNormalized("a -b");
    assert column == "a  b" by {
      assert "a -b"[1..] == " -b" && " -b"[1..] == "-b" && "-b"[1..] == "b" && "b"[1..] == "";
      assert Blank(KeptInTitle, "a -b") == "a  b";
      LowerAt("a  b");
    }
    assert Strip(column) == column;
    assert IsSpace(column[2]) && IsSpace(column[1]);
  }
}
