/** A stable sort and order-preserving removal of duplicates, with what later proofs need to know about them. */
module Sorting {

  ghost predicate TotalPreorder<T(!new)>(le: (T, T) -> bool) {
    && (forall a, b :: le(a, b) || le(b, a))
    && (forall a, b, c :: le(a, b) && le(b, c) ==> le(a, c))
  }

  /** R holds between every element and every later one. */
  ghost predicate Ordered<T(!new)>(r: (T, T) -> bool, s: seq<T>) {
    forall i, j :: 0 <= i < j < |s| ==> r(s[i], s[j])
  }

  /** First by `le`, and among equals by q. */
  function Then<T(!new)>(le: (T, T) -> bool, q: (T, T) -> bool): (T, T) -> bool {
    (a, b) => le(a, b) && (le(b, a) ==> q(a, b))
  }

  /** Puts x after everything that does not have to come after it. */
  function Insert<T>(s: seq<T>, x: T, le: (T, T) -> bool): (r: seq<T>)
    ensures multiset(r) == multiset(s) + multiset{x}
  {
    if s == [] || le(s[|s| - 1], x) then s + [x]
    else
      assert s == s[..|s| - 1] + [s[|s| - 1]];
      Insert(s[..|s| - 1], x, le) + [s[|s| - 1]]
  }

  /** What `slice::sort_by` computes: sorted, and equal elements keep their order. */
  function Sort<T>(s: seq<T>, le: (T, T) -> bool): (r: seq<T>)
    ensures multiset(r) == multiset(s)
  {
    if s == [] then [] else
      assert s == s[..|s| - 1] + [s[|s| - 1]];
      Insert(Sort(s[..|s| - 1], le), s[|s| - 1], le)
  }

  lemma {:induction false} InsertOrdered<T(!new)>(s: seq<T>, x: T, le: (T, T) -> bool, q: (T, T) -> bool)
    requires TotalPreorder(le) && Ordered(Then(le, q), s)
    requires forall y :: y in s ==> q(y, x)
    ensures Ordered(Then(le, q), Insert(s, x, le))
    ensures forall y :: y in Insert(s, x, le) <==> y in s || y == x
    decreases |s|
  {
    if s == [] || le(s[|s| - 1], x) {
      if s != [] {
        forall i | 0 <= i < |s| ensures Then(le, q)(s[i], x) {
          assert s[i] in s;
          if i < |s| - 1 { assert Then(le, q)(s[i], s[|s| - 1]); }
        }
      }
    } else {
      var init, last := s[..|s| - 1], s[|s| - 1];
      assert s == init + [last];
      InsertOrdered(init, x, le, q);
      var r := Insert(init, x, le);
      forall i | 0 <= i < |r| ensures Then(le, q)(r[i], last) {
        assert r[i] in r;
        if r[i] != x {
          var k :| 0 <= k < |init| && init[k] == r[i];
          assert Then(le, q)(s[k], s[|s| - 1]);
        }
      }
    }
  }

  /** Sorting orders by `le`, and a relation that held along the input still holds among equals. */
  lemma {:induction false} SortOrdered<T(!new)>(s: seq<T>, le: (T, T) -> bool, q: (T, T) -> bool)
    requires TotalPreorder(le) && Ordered(q, s)
    ensures Ordered(Then(le, q), Sort(s, le))
    decreases |s|
  {
    if s != [] {
      var init, last := s[..|s| - 1], s[|s| - 1];
      SortOrdered(init, le, q);
      var r := Sort(init, le);
      forall y | y in r ensures q(y, last) {
        assert y in multiset(r);
        assert y in multiset(init);
        var k :| 0 <= k < |init| && init[k] == y;
        assert q(s[k], s[|s| - 1]);
      }
      InsertOrdered(r, last, le, q);
    }
  }

  // ---------------------------------------------------------------- sequences without duplicates

  ghost predicate Distinct<T>(s: seq<T>) {
    forall i, j :: 0 <= i < j < |s| ==> s[i] != s[j]
  }

  /** s lists the elements of a set, each once. */
  ghost predicate Lists<T(!new)>(s: seq<T>, elements: set<T>) {
    Distinct(s) && forall x :: x in s <==> x in elements
  }

  lemma DistinctMultiset<T>(s: seq<T>)
    requires Distinct(s)
    ensures forall x :: multiset(s)[x] <= 1
  {
    if s != [] {
      var init := s[..|s| - 1];
      assert s == init + [s[|s| - 1]];
      DistinctMultiset(init);
    }
  }

  lemma MultisetDistinct<T>(s: seq<T>)
    requires forall x :: multiset(s)[x] <= 1
    ensures Distinct(s)
  {
    forall i, j | 0 <= i < j < |s| ensures s[i] != s[j] {
      assert s == s[..j] + [s[j]] + s[j + 1..];
      assert s[i] in s[..j];
      assert multiset(s)[s[i]] >= 1 + (if s[j] == s[i] then 1 else 0);
    }
  }

  lemma SortLists<T(!new)>(s: seq<T>, le: (T, T) -> bool, elements: set<T>)
    requires Lists(s, elements)
    ensures Lists(Sort(s, le), elements)
  {
    DistinctMultiset(s);
    MultisetDistinct(Sort(s, le));
    forall x ensures x in Sort(s, le) <==> x in elements {
      assert x in Sort(s, le) <==> x in multiset(Sort(s, le));
      assert x in s <==> x in multiset(s);
    }
  }

  /** No two different elements are related both ways. */
  ghost predicate Strict<T(!new)>(r: (T, T) -> bool, elements: set<T>) {
    forall a, b :: a in elements && b in elements && r(a, b) && r(b, a) ==> a == b
  }

  lemma HasHead<T(!new)>(s: seq<T>)
    ensures s == [] || exists x :: x in s
  {
    if s != [] { assert s[0] in s; }
  }

  lemma HeadFirst<T(!new)>(s: seq<T>, r: (T, T) -> bool, k: nat)
    requires Ordered(r, s) && k < |s|
    ensures s[0] == s[k] || r(s[0], s[k])
  {
  }

  ghost predicate ComesBefore<T>(s: seq<T>, a: T, b: T) {
    exists i, j :: 0 <= i < j < |s| && s[i] == a && s[j] == b
  }

  lemma NotBothWays<T>(s: seq<T>, a: T, b: T)
    requires Distinct(s) && ComesBefore(s, a, b)
    ensures !ComesBefore(s, b, a)
  {
  }

  /** In an ordered listing an element that may not come after another comes before it. */
  lemma OrderDecides<T(!new)>(s: seq<T>, r: (T, T) -> bool, a: T, b: T)
    requires Ordered(r, s) && a in s && b in s && a != b && !r(b, a)
    ensures ComesBefore(s, a, b)
  {
    var i :| 0 <= i < |s| && s[i] == a;
    var j :| 0 <= j < |s| && s[j] == b;
  }

  /** There is only one way to list a set in a strict order. */
  lemma {:induction false} OneListing<T(!new)>(s: seq<T>, t: seq<T>, r: (T, T) -> bool, elements: set<T>)
    requires Lists(s, elements) && Lists(t, elements)
    requires Ordered(r, s) && Ordered(r, t) && Strict(r, elements)
    ensures s == t
    decreases |s|
  {
    if s == [] {
      HasHead(t);
    } else {
      var x := s[0];
      assert x in s && x in t;
      var k :| 0 <= k < |t| && t[k] == x;
      assert t[0] in t && t[0] in s;
      var l :| 0 <= l < |s| && s[l] == t[0];
      HeadFirst(t, r, k);
      HeadFirst(s, r, l);
      assert t[0] == x;
      var rest := elements - {x};
      forall y ensures y in s[1..] <==> y in rest {
        if y in s[1..] { assert y in s; }
        if y in rest { assert y in s; }
      }
      forall y ensures y in t[1..] <==> y in rest {
        if y in t[1..] { assert y in t; }
        if y in rest { assert y in t; }
      }
      OneListing(s[1..], t[1..], r, rest);
      assert s == [x] + s[1..] && t == [x] + t[1..];
    }
  }

  // ---------------------------------------------------------------- removing duplicates

  /** Keeps the first occurrence of everything. */
  function Unique<T(==, !new)>(s: seq<T>): (r: seq<T>)
    ensures Distinct(r)
    ensures forall x :: x in r <==> x in s
    ensures Distinct(s) ==> r == s
  {
    if s == [] then [] else
      var r := Unique(s[..|s| - 1]);
      assert s == s[..|s| - 1] + [s[|s| - 1]];
      if s[|s| - 1] in r then r else r + [s[|s| - 1]]
  }

  /** Where x first occurs. */
  function FirstAt<T(==)>(s: seq<T>, x: T): (i: nat)
    requires x in s
    ensures i < |s| && s[i] == x && forall k :: 0 <= k < i ==> s[k] != x
  {
    if s[0] == x then 0 else FirstAt(s[1..], x) + 1
  }

  /** Exactly the elements of s, each once, in the order in which they first occur. */
  ghost predicate KeepsFirsts<T(!new)>(s: seq<T>, r: seq<T>) {
    && Distinct(r)
    && (forall x :: x in r <==> x in s)
    && (forall i, j :: 0 <= i < j < |r| ==> FirstAt(s, r[i]) < FirstAt(s, r[j]))
  }

  /** The loop that does it. */
  method RemoveDuplicates<T(==, !new)>(s: seq<T>) returns (r: seq<T>)
    ensures r == Unique(s)
    ensures KeepsFirsts(s, r)
  {
    r := [];
    for i := 0 to |s|
      invariant r == Unique(s[..i])
    {
      assert s[..i + 1][..i] == s[..i];
      if s[i] !in r { r := r + [s[i]]; }
    }
    assert s[..|s|] == s;
    UniqueKeepsFirsts(s);
  }

  lemma UniqueKeepsFirsts<T(!new)>(s: seq<T>)
    ensures KeepsFirsts(s, Unique(s))
  {
    var earlier := (x: T, y: T) => x in s && y in s && FirstAt(s, x) < FirstAt(s, y);
    forall i, j | 0 <= i < j < |s| && s[i] != s[j] && s[j] !in s[..j] ensures earlier(s[i], s[j]) {
      assert forall k :: 0 <= k < j ==> s[k] == s[..j][k] && s[k] != s[j];
      assert FirstAt(s, s[i]) <= i < j <= FirstAt(s, s[j]);
    }
    UniqueKeepsOrder(s, earlier);
  }

  /** The relative order of what is kept is the order of first occurrence. */
  lemma {:induction false} UniqueKeepsOrder<T(!new)>(s: seq<T>, r: (T, T) -> bool)
    requires forall i, j :: 0 <= i < j < |s| && s[i] != s[j] && s[j] !in s[..j] ==> r(s[i], s[j])
    ensures Ordered(r, Unique(s))
    decreases |s|
  {
    if s != [] {
      var init, last := s[..|s| - 1], s[|s| - 1];
      forall i, j | 0 <= i < j < |init| && init[i] != init[j] && init[j] !in init[..j] ensures r(init[i], init[j]) {
        assert s[..j] == init[..j];
      }
      UniqueKeepsOrder(init, r);
      if last !in Unique(init) {
        assert s[..|s| - 1] == init;
        forall i | 0 <= i < |Unique(init)| ensures r(Unique(init)[i], last) {
          assert Unique(init)[i] in init;
          var k :| 0 <= k < |init| && init[k] == Unique(init)[i];
          assert s[k] == init[k];
        }
      }
    }
  }
}
