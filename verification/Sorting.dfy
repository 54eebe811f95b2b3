/** Stable insertion sort by a strict weak order, which is what `sort_by` computes. */
module Sorting {

  /** Asymmetric, and incomparability is transitive. */
  ghost predicate WeakOrder<T(!new)>(before: (T, T) -> bool)
  {
    && (forall a, b :: before(a, b) ==> !before(b, a))
    && (forall a, b, c :: !before(b, a) && !before(c, b) ==> !before(c, a))
  }

  ghost predicate Sorted<T>(before: (T, T) -> bool, s: seq<T>)
  {
    forall i, j :: 0 <= i < j < |s| ==> !before(s[j], s[i])
  }

  function InsertSorted<T>(before: (T, T) -> bool, s: seq<T>, x: T): (r: seq<T>)
    ensures |r| == |s| + 1
    decreases |s|
  {
    if s == [] then [x]
    else
      var n := |s| - 1;
      if before(x, s[n]) then InsertSorted(before, s[..n], x) + [s[n]] else s + [x]
  }

  function SortBy<T>(before: (T, T) -> bool, s: seq<T>): (r: seq<T>)
    ensures |r| == |s|
    decreases |s|
  {
    if s == [] then [] else InsertSorted(before, SortBy(before, s[..|s| - 1]), s[|s| - 1])
  }

  lemma {:induction false} InsertKeeps<T(!new)>(before: (T, T) -> bool, s: seq<T>, x: T)
    ensures multiset(InsertSorted(before, s, x)) == multiset(s) + multiset{x}
    decreases |s|
  {
    if s != [] {
      var n := |s| - 1;
      assert s == s[..n] + [s[n]];
      if before(x, s[n]) {
        InsertKeeps(before, s[..n], x);
      }
    }
  }

  lemma {:induction false} InsertedSorted<T(!new)>(before: (T, T) -> bool, s: seq<T>, x: T)
    requires WeakOrder(before) && Sorted(before, s)
    ensures Sorted(before, InsertSorted(before, s, x))
    decreases |s|
  {
    if s != [] {
      var n := |s| - 1;
      if before(x, s[n]) {
        InsertedSorted(before, s[..n], x);
        InsertKeeps(before, s[..n], x);
        var r := InsertSorted(before, s[..n], x);
        forall i | 0 <= i < |r| ensures !before(s[n], r[i]) {
          assert r[i] in multiset(r);
          assert r[i] in multiset(s[..n]) || r[i] == x;
          assert r[i] in s[..n] || r[i] == x;
        }
      } else {
        forall i | 0 <= i < n ensures !before(x, s[i]) {
          assert !before(s[n], s[i]);
        }
      }
    }
  }

  lemma {:induction false} SortSpec<T(!new)>(before: (T, T) -> bool, s: seq<T>)
    ensures multiset(SortBy(before, s)) == multiset(s)
    ensures WeakOrder(before) ==> Sorted(before, SortBy(before, s))
    decreases |s|
  {
    if s != [] {
      var n := |s| - 1;
      SortSpec(before, s[..n]);
      InsertKeeps(before, SortBy(before, s[..n]), s[n]);
      assert s == s[..n] + [s[n]];
      if WeakOrder(before) {
        InsertedSorted(before, SortBy(before, s[..n]), s[n]);
      }
    }
  }

  /** Sorting what is sorted changes nothing. */
  lemma {:induction false} SortedStays<T(!new)>(before: (T, T) -> bool, s: seq<T>)
    requires Sorted(before, s)
    ensures SortBy(before, s) == s
    decreases |s|
  {
    if s != [] {
      var n := |s| - 1;
      SortedStays(before, s[..n]);
      assert s == s[..n] + [s[n]];
      assert n > 0 ==> !before(s[n], s[..n][n - 1]);
    }
  }

  ghost predicate Tied<T>(before: (T, T) -> bool, x: T, y: T)
  {
    !before(x, y) && !before(y, x)
  }

  /** The elements of `s` that the order does not separate from `x`. */
  ghost function Ties<T>(before: (T, T) -> bool, x: T, s: seq<T>): seq<T>
  {
    if s == [] then []
    else Ties(before, x, s[..|s| - 1]) + if Tied(before, x, s[|s| - 1]) then [s[|s| - 1]] else []
  }

  lemma {:induction false} TiesSnoc<T(!new)>(before: (T, T) -> bool, x: T, s: seq<T>, y: T)
    ensures Ties(before, x, s + [y]) == Ties(before, x, s) + if Tied(before, x, y) then [y] else []
  {
    assert (s + [y])[..|s|] == s;
  }

  lemma {:induction false} InsertStable<T(!new)>(before: (T, T) -> bool, s: seq<T>, y: T, x: T)
    requires WeakOrder(before)
    ensures Ties(before, x, InsertSorted(before, s, y)) == Ties(before, x, s) + if Tied(before, x, y) then [y] else []
    decreases |s|
  {
    TiesSnoc(before, x, s, y);
    if s == [] {
      assert s + [y] == [y];
    } else {
      var n := |s| - 1;
      if before(y, s[n]) {
        InsertStable(before, s[..n], y, x);
        TiesSnoc(before, x, InsertSorted(before, s[..n], y), s[n]);
        NotBothTied(before, x, y, s[n]);
        hide WeakOrder, Tied;
      }
    }
  }

  lemma NotBothTied<T(!new)>(before: (T, T) -> bool, x: T, y: T, z: T)
    requires WeakOrder(before) && before(y, z)
    ensures !Tied(before, x, y) || !Tied(before, x, z)
  {
  }

  /** Sorting keeps the order of the elements that it does not separate. */
  lemma {:induction false} SortStable<T(!new)>(before: (T, T) -> bool, s: seq<T>, x: T)
    requires WeakOrder(before)
    ensures Ties(before, x, SortBy(before, s)) == Ties(before, x, s)
    decreases |s|
  {
    if s != [] {
      var n := |s| - 1;
      SortStable(before, s[..n], x);
      InsertStable(before, SortBy(before, s[..n]), s[n], x);
    }
  }

  // Sorting without ties

  ghost predicate TotalOrder<T(!new)>(before: (T, T) -> bool)
  {
    WeakOrder(before) && forall x, y :: x != y ==> before(x, y) || before(y, x)
  }

  ghost predicate Ascending<T>(before: (T, T) -> bool, s: seq<T>)
  {
    forall i, j :: 0 <= i < j < |s| ==> before(s[i], s[j])
  }

  ghost predicate NoDuplicates<T>(s: seq<T>)
  {
    forall i, j :: 0 <= i < j < |s| ==> s[i] != s[j]
  }

  lemma TwiceIn<T>(s: seq<T>, i: nat, j: nat)
    requires i < j < |s| && s[i] == s[j]
    ensures multiset(s)[s[i]] >= 2
  {
    assert s == s[..j] + s[j..];
    assert s[i] in s[..j] && s[j] in s[j..];
  }

  lemma {:induction false} OnceIn<T(!new)>(s: seq<T>, h: T)
    requires NoDuplicates(s)
    ensures multiset(s)[h] <= 1
  {
    if s != [] {
      var n := |s| - 1;
      OnceIn(s[..n], h);
      assert s == s[..n] + [s[n]];
    }
  }

  lemma SameElements<T(!new)>(s: seq<T>, t: seq<T>)
    requires multiset(s) == multiset(t)
    ensures |s| == |t| && forall x :: x in s <==> x in t
    ensures NoDuplicates(s) ==> NoDuplicates(t)
  {
    assert |multiset(s)| == |s| && |multiset(t)| == |t|;
    forall x ensures x in s <==> x in t {
      assert x in s <==> x in multiset(s);
      assert x in t <==> x in multiset(t);
    }
    if NoDuplicates(s) {
      forall i, j | 0 <= i < j < |t| ensures t[i] != t[j] {
        if t[i] == t[j] {
          TwiceIn(t, i, j);
          OnceIn(s, t[i]);
        }
      }
    }
  }

  /** Sorting a list without duplicates by a total order. */
  lemma {:induction false} SortAscending<T(!new)>(before: (T, T) -> bool, s: seq<T>)
    requires TotalOrder(before) && NoDuplicates(s)
    ensures Ascending(before, SortBy(before, s)) && forall x :: x in SortBy(before, s) <==> x in s
  {
    SortSpec(before, s);
    var sorted := SortBy(before, s);
    SameElements(s, sorted);
    hide SortBy, WeakOrder;
    forall i, j | 0 <= i < j < |sorted| ensures before(sorted[i], sorted[j]) {
      assert sorted[i] != sorted[j];
    }
  }

  ghost predicate AscendingOf<T(!new)>(before: (T, T) -> bool, s: seq<T>, elems: set<T>)
  {
    Ascending(before, s) && forall x :: x in s <==> x in elems
  }

  /** A finite set has one ascending list. */
  lemma {:induction false} AscendingUnique<T(!new)>(before: (T, T) -> bool, a: seq<T>, b: seq<T>)
    requires TotalOrder(before) && Ascending(before, a) && Ascending(before, b) && forall x :: x in a <==> x in b
    ensures a == b
    decreases |a|
  {
    BothEmpty(a, b);
    if a != [] {
      assert a[0] in b && b[0] in a;
      SameFirst(before, a, b);
      SameRest(before, a, b);
      AscendingUnique(before, a[1..], b[1..]);
    }
  }

  lemma BothEmpty<T(!new)>(a: seq<T>, b: seq<T>)
    requires forall x :: x in a <==> x in b
    ensures a == [] <==> b == []
  {
    if a != [] {
      assert a[0] in a;
    }
    if b != [] {
      assert b[0] in b;
    }
  }

  lemma SameFirst<T(!new)>(before: (T, T) -> bool, a: seq<T>, b: seq<T>)
    requires TotalOrder(before) && Ascending(before, a) && Ascending(before, b)
    requires a != [] && b != [] && a[0] in b && b[0] in a
    ensures a[0] == b[0]
  {
    var i :| 0 <= i < |a| && a[i] == b[0];
    var j :| 0 <= j < |b| && b[j] == a[0];
  }

  lemma SameRest<T(!new)>(before: (T, T) -> bool, a: seq<T>, b: seq<T>)
    requires TotalOrder(before) && Ascending(before, a) && Ascending(before, b)
    requires a != [] && b != [] && a[0] == b[0] && forall x :: x in a <==> x in b
    ensures Ascending(before, a[1..]) && Ascending(before, b[1..])
    ensures forall x :: x in a[1..] <==> x in b[1..]
  {
    assert a == [a[0]] + a[1..] && b == [b[0]] + b[1..];
    assert a[0] !in a[1..] && b[0] !in b[1..];
    forall x ensures x in a[1..] <==> x in b[1..] {
      assert x in a <==> x == a[0] || x in a[1..];
      assert x in b <==> x == b[0] || x in b[1..];
    }
  }

  /** Draining a hash set and sorting what comes out. */
  method SortedSet<T(!new, ==)>(before: (T, T) -> bool, elems: set<T>) returns (s: seq<T>)
    requires TotalOrder(before)
    ensures AscendingOf(before, s, elems)
  {
    var list: seq<T>, rest := [], elems;
    while rest != {}
      invariant rest <= elems && NoDuplicates(list)
      invariant forall x :: x in list <==> x in elems && x !in rest
      decreases |rest|
    {
      var x :| x in rest;
      rest, list := rest - {x}, list + [x];
    }
    SortAscending(before, list);
    s := SortBy(before, list);
  }

  /** The ascending list of a set. */
  ghost function Ascend<T(!new)>(before: (T, T) -> bool, elems: set<T>): (s: seq<T>)
    requires TotalOrder(before)
    ensures AscendingOf(before, s, elems)
  {
    AscendExists(before, elems);
    var s :| AscendingOf(before, s, elems);
    s
  }

  lemma {:induction false} AscendExists<T(!new)>(before: (T, T) -> bool, elems: set<T>)
    requires TotalOrder(before)
    ensures exists s :: AscendingOf(before, s, elems)
  {
    var list := Enumerated(elems);
    SortAscending(before, list);
    assert AscendingOf(before, SortBy(before, list), elems);
  }

  lemma {:induction false} Enumerated<T(!new)>(elems: set<T>) returns (list: seq<T>)
    ensures NoDuplicates(list) && forall x :: x in list <==> x in elems
  {
    list := [];
    if elems != {} {
      var x :| x in elems;
      var rest := Enumerated(elems - {x});
      list := rest + [x];
    }
  }
}
