/** Sequence vocabulary shared by the listings, the normalisers and the paging walk. */
module Sequences {
  import opened Outcomes

  /** Python's `s[:n]` and SQL's LIMIT. */
  function Take<T>(s: seq<T>, n: nat): seq<T> {
    if n < |s| then s[..n] else s
  }

  /** SQL's OFFSET followed by LIMIT. */
  function Slice<T>(s: seq<T>, offset: nat, limit: nat): seq<T> {
    if offset <= |s| then Take(s[offset..], limit) else []
  }

  function Map<A, B>(f: A -> B, s: seq<A>): (r: seq<B>)
    ensures |r| == |s| && forall i :: 0 <= i < |s| ==> r[i] == f(s[i])
  {
    seq(|s|, i requires 0 <= i < |s| => f(s[i]))
  }

  function Filter<T>(p: T -> bool, s: seq<T>): seq<T> {
    if s == [] then []
    else
      var kept := Filter(p, s[..|s| - 1]);
      if p(s[|s| - 1]) then kept + [s[|s| - 1]] else kept
  }

  /** The values `f` keeps, in order: the list comprehension behind the normaliser loops. */
  function FilterMap<A, B>(f: A -> Option<B>, s: seq<A>): seq<B> {
    if s == [] then []
    else
      var kept := FilterMap(f, s[..|s| - 1]);
      match f(s[|s| - 1])
      case Some(b) => kept + [b]
      case None => kept
  }

  ghost predicate Distinct<T>(s: seq<T>) {
    forall i, j :: 0 <= i < j < |s| ==> s[i] != s[j]
  }

  /** One more item: what a normaliser loop does in one turn. */
  lemma FilterMapStep<A, B>(f: A -> Option<B>, s: seq<A>, i: nat)
    requires i < |s|
    ensures match f(s[i])
            case Some(b) => FilterMap(f, s[..i + 1]) == FilterMap(f, s[..i]) + [b]
            case None => FilterMap(f, s[..i + 1]) == FilterMap(f, s[..i])
  {
    assert s[..i + 1][..i] == s[..i];
  }

  /** Stopping early never changes what was already kept. */
  lemma {:induction false} FilterMapPrefix<A, B>(f: A -> Option<B>, s: seq<A>, n: nat)
    requires n <= |s|
    ensures FilterMap(f, s[..n]) <= FilterMap(f, s)
  {
    if n == |s| {
      assert s[..n] == s;
    } else {
      FilterMapPrefix(f, s[..|s| - 1], n);
      assert s[..|s| - 1][..n] == s[..n];
    }
  }

  lemma {:induction false} FilterMapAll<A, B, C>(f: B -> Option<C>, g: A -> B, h: A -> C, s: seq<A>)
    requires forall x :: x in s ==> f(g(x)) == Some(h(x))
    ensures FilterMap(f, Map(g, s)) == Map(h, s)
  {
    if s == [] {
    } else {
      var n := |s| - 1;
      var m := Map(g, s);
      FilterMapAll(f, g, h, s[..n]);
      assert m[..n] == Map(g, s[..n]);
      assert f(m[n]) == Some(h(s[n]));
      assert FilterMap(f, m) == Map(h, s[..n]) + [h(s[n])];
      assert Map(h, s) == Map(h, s[..n]) + [h(s[n])];
    }
  }

  /** Comprehensions that agree item by item agree. */
  lemma {:induction false} FilterMapAgree<A, B, C>(f: B -> Option<C>, g: A -> B, h: A -> Option<C>, s: seq<A>)
    requires forall x :: x in s ==> f(g(x)) == h(x)
    ensures FilterMap(f, Map(g, s)) == FilterMap(h, s)
  {
    if s != [] {
      var n := |s| - 1;
      var m := Map(g, s);
      FilterMapAgree(f, g, h, s[..n]);
      assert m[..n] == Map(g, s[..n]);
      assert f(m[n]) == h(s[n]);
    }
  }

  /** Everything `f` keeps is in the comprehension. */
  lemma {:induction false} FilterMapHolds<A, B>(f: A -> Option<B>, s: seq<A>, a: A, b: B)
    requires a in s && f(a) == Some(b)
    ensures b in FilterMap(f, s)
  {
    var n := |s| - 1;
    if a != s[n] {
      assert s == s[..n] + [s[n]];
      FilterMapHolds(f, s[..n], a, b);
    }
  }

  lemma {:induction false} FilterMapLength<A, B>(f: A -> Option<B>, s: seq<A>)
    ensures |FilterMap(f, s)| <= |s|
  {
    if s != [] {
      FilterMapLength(f, s[..|s| - 1]);
    }
  }

  /** A comprehension leaves a sequence alone exactly when it leaves every item alone. */
  lemma {:induction false} FilterMapFixes<T>(f: T -> Option<T>, s: seq<T>)
    ensures FilterMap(f, s) == s <==> forall x :: x in s ==> f(x) == Some(x)
  {
    if s != [] {
      var n := |s| - 1;
      FilterMapFixes(f, s[..n]);
      FilterMapLength(f, s[..n]);
      assert s == s[..n] + [s[n]];
      if FilterMap(f, s) == s {
        assert FilterMap(f, s) == FilterMap(f, s[..n]) + [s[n]];
      }
    }
  }

  /** Everything the comprehension keeps came from some input. */
  lemma {:induction false} FilterMapFrom<A, B>(f: A -> Option<B>, s: seq<A>, b: B)
    requires b in FilterMap(f, s)
    ensures exists a :: a in s && f(a) == Some(b)
  {
    var n := |s| - 1;
    if f(s[n]) == Some(b) {
      assert s[n] in s;
    } else {
      FilterMapFrom(f, s[..n], b);
      var a :| a in s[..n] && f(a) == Some(b);
      assert a in s;
    }
  }

  lemma {:induction false} FilterIn<T>(p: T -> bool, s: seq<T>, x: T)
    ensures x in Filter(p, s) <==> x in s && p(x)
  {
    if s != [] {
      FilterIn(p, s[..|s| - 1], x);
      assert s == s[..|s| - 1] + [s[|s| - 1]];
    }
  }

  lemma {:induction false} FilterCount<T>(p: T -> bool, s: seq<T>, x: T)
    ensures multiset(Filter(p, s))[x] == if p(x) then multiset(s)[x] else 0
  {
    if s != [] {
      FilterCount(p, s[..|s| - 1], x);
      assert s == s[..|s| - 1] + [s[|s| - 1]];
    }
  }

  lemma SameCounts<T>(a: multiset<T>, b: multiset<T>)
    requires forall x: T :: a[x] == b[x]
    ensures a == b
  {
  }

  lemma {:induction false} FilterPermutes<T>(p: T -> bool, s: seq<T>, t: seq<T>)
    requires multiset(s) == multiset(t)
    ensures multiset(Filter(p, s)) == multiset(Filter(p, t))
  {
    var a, b := multiset(Filter(p, s)), multiset(Filter(p, t));
    forall x: T
      ensures a[x] == b[x]
    {
      FilterCount(p, s, x);
      FilterCount(p, t, x);
    }
    SameCounts(a, b);
  }

  lemma {:induction false} FilterLength<T>(p: T -> bool, s: seq<T>)
    ensures |Filter(p, s)| <= |s|
  {
    if s != [] {
      FilterLength(p, s[..|s| - 1]);
    }
  }

  lemma {:induction false} FilterPrefix<T>(p: T -> bool, s: seq<T>, n: nat)
    requires n <= |s|
    ensures Filter(p, s[..n]) <= Filter(p, s)
  {
    if n == |s| {
      assert s[..n] == s;
    } else {
      FilterPrefix(p, s[..|s| - 1], n);
      assert s[..|s| - 1][..n] == s[..n];
    }
  }

  lemma {:induction false} FilterAppend<T>(p: T -> bool, s: seq<T>, t: seq<T>)
    ensures Filter(p, s + t) == Filter(p, s) + Filter(p, t)
  {
    if t == [] {
      assert s + t == s;
    } else {
      FilterAppend(p, s, t[..|t| - 1]);
      assert (s + t)[..|s + t| - 1] == s + t[..|t| - 1];
    }
  }

  lemma FilterNone<T>(p: T -> bool, s: seq<T>)
    requires forall i :: 0 <= i < |s| ==> !p(s[i])
    ensures Filter(p, s) == []
  {
  }

  lemma {:induction false} FilterTwice<T(!new)>(p: T -> bool, q: T -> bool, both: T -> bool, s: seq<T>)
    requires forall x :: both(x) == (p(x) && q(x))
    ensures Filter(q, Filter(p, s)) == Filter(both, s)
  {
    if s != [] {
      FilterTwice(p, q, both, s[..|s| - 1]);
      var kept := Filter(p, s[..|s| - 1]);
      var last := s[|s| - 1];
      assert (kept + [last])[..|kept|] == kept;
    }
  }

  lemma {:induction false} FilterSame<T(!new)>(p: T -> bool, q: T -> bool, s: seq<T>)
    requires forall x :: p(x) == q(x)
    ensures Filter(p, s) == Filter(q, s)
  {
    if s != [] {
      FilterSame(p, q, s[..|s| - 1]);
    }
  }
}
