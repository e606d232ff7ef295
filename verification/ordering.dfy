/** ORDER BY. A key with ties leaves the order of tied rows open, so the result
    of an ORDER BY is a relation; over a key without ties it is one sequence. */
module Ordering {
  import opened Sequences

  ghost predicate TotalPreorder<T(!new)>(le: (T, T) -> bool) {
    && (forall a, b :: le(a, b) || le(b, a))
    && (forall a, b, c :: le(a, b) && le(b, c) ==> le(a, c))
  }

  ghost predicate Ordered<T>(le: (T, T) -> bool, s: seq<T>) {
    forall i, j :: 0 <= i < j < |s| ==> le(s[i], s[j])
  }

  /** `out` is a possible result of `SELECT ... FROM rows ORDER BY le`. */
  ghost predicate OrderBy<T>(le: (T, T) -> bool, rows: seq<T>, out: seq<T>) {
    multiset(out) == multiset(rows) && Ordered(le, out)
  }

  /** No two different rows of `s` tie. */
  ghost predicate Untied<T>(le: (T, T) -> bool, s: seq<T>) {
    forall a, b :: a in s && b in s && le(a, b) && le(b, a) ==> a == b
  }

  function Insert<T>(le: (T, T) -> bool, x: T, s: seq<T>): seq<T> {
    if s == [] || le(x, s[0]) then [x] + s else [s[0]] + Insert(le, x, s[1..])
  }

  function Sort<T>(le: (T, T) -> bool, s: seq<T>): seq<T> {
    if s == [] then [] else Insert(le, s[0], Sort(le, s[1..]))
  }

  lemma SameElements<T>(s: seq<T>, t: seq<T>, x: T)
    requires multiset(s) == multiset(t) && x in s
    ensures x in t
  {
    assert x in multiset(s);
  }

  lemma OrderedCons<T>(le: (T, T) -> bool, x: T, s: seq<T>)
    requires Ordered(le, s) && forall j :: 0 <= j < |s| ==> le(x, s[j])
    ensures Ordered(le, [x] + s)
  {
  }

  lemma {:induction false} InsertOrders<T(!new)>(le: (T, T) -> bool, x: T, s: seq<T>)
    requires TotalPreorder(le) && Ordered(le, s)
    ensures OrderBy(le, [x] + s, Insert(le, x, s))
  {
    if s == [] || le(x, s[0]) {
    } else {
      InsertOrders(le, x, s[1..]);
      var r := Insert(le, x, s[1..]);
      assert s == [s[0]] + s[1..];
      forall j | 0 <= j < |r|
        ensures le(s[0], r[j])
      {
        SameElements(r, [x] + s[1..], r[j]);
      }
      OrderedCons(le, s[0], r);
    }
  }

  lemma {:induction false} SortOrders<T(!new)>(le: (T, T) -> bool, s: seq<T>)
    requires TotalPreorder(le)
    ensures OrderBy(le, s, Sort(le, s))
  {
    if s != [] {
      SortOrders(le, s[1..]);
      InsertOrders(le, s[0], Sort(le, s[1..]));
      assert s == [s[0]] + s[1..];
    }
  }

  /** Two orderings of the same untied rows start with the same row. */
  lemma OrderedHead<T>(le: (T, T) -> bool, s: seq<T>, t: seq<T>)
    requires s != [] && t != []
    requires t[0] in s && s[0] in t && Ordered(le, s) && Ordered(le, t)
    requires Untied(le, s)
    ensures s[0] == t[0]
  {
    var i :| 0 <= i < |t| && t[i] == s[0];
    var j :| 0 <= j < |s| && s[j] == t[0];
    if i != 0 && j != 0 {
      assert le(t[0], s[0]) && le(s[0], t[0]);
    }
  }

  /** Without ties the result of ORDER BY is determined, whatever order the rows were stored in. */
  lemma {:induction false} OrderedUnique<T>(le: (T, T) -> bool, s: seq<T>, t: seq<T>)
    requires multiset(s) == multiset(t) && Ordered(le, s) && Ordered(le, t)
    requires Untied(le, s)
    ensures s == t
  {
    if s == [] {
      assert |multiset(t)| == 0;
    } else {
      assert s[0] in multiset(t);
      assert t[0] in multiset(s);
      OrderedHead(le, s, t);
      assert s == [s[0]] + s[1..];
      assert t == [t[0]] + t[1..];
      assert multiset(s[1..]) == multiset(s) - multiset{s[0]};
      assert multiset(t[1..]) == multiset(t) - multiset{t[0]};
      OrderedUnique(le, s[1..], t[1..]);
    }
  }

  /** ... so it is the sorted sequence. */
  lemma SortDetermined<T(!new)>(le: (T, T) -> bool, rows: seq<T>, out: seq<T>)
    requires TotalPreorder(le) && Untied(le, rows) && OrderBy(le, rows, out)
    ensures out == Sort(le, rows)
  {
    SortOrders(le, rows);
    forall a | a in out
      ensures a in rows
    {
      SameElements(out, rows, a);
    }
    OrderedUnique(le, out, Sort(le, rows));
  }

  lemma {:induction false} FilterOrdered<T>(le: (T, T) -> bool, p: T -> bool, s: seq<T>)
    requires Ordered(le, s)
    ensures Ordered(le, Filter(p, s))
  {
    if s != [] {
      var n := |s| - 1;
      FilterOrdered(le, p, s[..n]);
      var kept := Filter(p, s[..n]);
      forall i | 0 <= i < |kept|
        ensures le(kept[i], s[n])
      {
        FilterIn(p, s[..n], kept[i]);
        var k :| 0 <= k < n && s[k] == kept[i];
      }
    }
  }

  /** Filtering commutes with sorting when no two rows tie. */
  lemma {:induction false} FilterSort<T(!new)>(le: (T, T) -> bool, p: T -> bool, s: seq<T>)
    requires TotalPreorder(le) && Untied(le, s)
    ensures Filter(p, Sort(le, s)) == Sort(le, Filter(p, s))
  {
    var sorted := Sort(le, s);
    SortOrders(le, s);
    SortOrders(le, Filter(p, s));
    FilterOrdered(le, p, sorted);
    FilterPermutes(p, sorted, s);
    forall a | a in Filter(p, sorted)
      ensures a in s
    {
      FilterIn(p, sorted, a);
      assert a in multiset(sorted);
    }
    OrderedUnique(le, Filter(p, sorted), Sort(le, Filter(p, s)));
  }

  /** Rows satisfying a property that the order favours come first. */
  lemma {:induction false} FavouredFirst<T(!new)>(le: (T, T) -> bool, p: T -> bool, s: seq<T>)
    requires Ordered(le, s)
    requires forall a, b :: le(a, b) && p(b) ==> p(a)
    ensures |Filter(p, s)| <= |s| && s[..|Filter(p, s)|] == Filter(p, s)
    ensures forall i :: |Filter(p, s)| <= i < |s| ==> !p(s[i])
  {
    if s != [] {
      var n := |s| - 1;
      FavouredFirst(le, p, s[..n]);
      var k := |Filter(p, s[..n])|;
      if p(s[n]) && k < n {
        assert false;
      }
      assert s == s[..n] + [s[n]];
    }
  }
}
