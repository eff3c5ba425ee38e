/**
 * A stable insertion sort over a "comes no later than" relation. The backend
 * orders rows in two places: the store's `orderBy` on list queries and
 * `Array.prototype.sort` (which is stable) on the genre tallies of the
 * statistics handler. Both are this one function with a different relation.
 */
module Sorting {

  /** `le` is total and transitive: ties are allowed, cycles are not. */
  ghost predicate TotalPreorder<T(!new)>(le: (T, T) -> bool) {
    && (forall x, y :: le(x, y) || le(y, x))
    && (forall x, y, z :: le(x, y) && le(y, z) ==> le(x, z))
  }

  predicate Sorted<T>(s: seq<T>, le: (T, T) -> bool) {
    forall i, j :: 0 <= i < j < |s| ==> le(s[i], s[j])
  }

  /** Puts `x` after every element of `s` that may come before it. */
  function Insert<T>(x: T, s: seq<T>, le: (T, T) -> bool): (r: seq<T>)
    ensures multiset(r) == multiset(s) + multiset{x}
  {
    if s == [] then [x]
    else
      assert s == [s[0]] + s[1..];
      if le(s[0], x) then [s[0]] + Insert(x, s[1..], le) else [x] + s
  }

  /** Inserts the elements one by one, in their order in `s`. */
  function Sort<T>(s: seq<T>, le: (T, T) -> bool): (r: seq<T>)
    ensures multiset(r) == multiset(s)
  {
    if s == [] then []
    else
      assert s == s[..|s| - 1] + [s[|s| - 1]];
      Insert(s[|s| - 1], Sort(s[..|s| - 1], le), le)
  }

  /** Sorting keeps the elements and the length. */
  lemma SortKeepsMembers<T>(s: seq<T>, le: (T, T) -> bool)
    ensures |Sort(s, le)| == |s|
    ensures forall x :: x in Sort(s, le) <==> x in s
  {
    var r := Sort(s, le);
    assert |multiset(r)| == |r| && |multiset(s)| == |s|;
    assert forall x :: x in r <==> x in multiset(r);
    assert forall x :: x in s <==> x in multiset(s);
  }

  lemma {:induction false} InsertSorted<T(!new)>(x: T, s: seq<T>, le: (T, T) -> bool)
    requires TotalPreorder(le)
    requires Sorted(s, le)
    ensures Sorted(Insert(x, s, le), le)
  {
    if s != [] && le(s[0], x) {
      InsertSorted(x, s[1..], le);
      var r := Insert(x, s, le);
      forall k | 0 < k < |r| ensures le(r[0], r[k]) {
        assert r[k] in multiset(Insert(x, s[1..], le));
        assert r[k] == x || r[k] in multiset(s[1..]);
        if r[k] != x {
          var m :| 0 <= m < |s[1..]| && s[1..][m] == r[k];
          assert s[m + 1] == r[k];
        }
      }
    }
  }

  /** The result of `Sort` is in order. */
  lemma {:induction false} SortSorted<T(!new)>(s: seq<T>, le: (T, T) -> bool)
    requires TotalPreorder(le)
    ensures Sorted(Sort(s, le), le)
  {
    if s != [] {
      SortSorted(s[..|s| - 1], le);
      InsertSorted(s[|s| - 1], Sort(s[..|s| - 1], le), le);
    }
  }

  /** `x` and `c` are tied under `le`. */
  predicate Tied<T>(x: T, c: T, le: (T, T) -> bool) {
    le(x, c) && le(c, x)
  }

  /** The elements of `s` tied with `c`, in their order in `s`. */
  function Ties<T>(s: seq<T>, c: T, le: (T, T) -> bool): seq<T> {
    if s == [] then []
    else (if Tied(s[0], c, le) then [s[0]] else []) + Ties(s[1..], c, le)
  }

  lemma {:induction false} TiesAppend<T>(a: seq<T>, b: seq<T>, c: T, le: (T, T) -> bool)
    ensures Ties(a + b, c, le) == Ties(a, c, le) + Ties(b, c, le)
  {
    if a == [] {
      assert a + b == b;
    } else {
      var ab := a + b;
      var head := if Tied(a[0], c, le) then [a[0]] else [];
      assert ab[0] == a[0] && ab[1..] == a[1..] + b;
      calc {
        Ties(ab, c, le);
        head + Ties(a[1..] + b, c, le);
        { TiesAppend(a[1..], b, c, le); }
        head + (Ties(a[1..], c, le) + Ties(b, c, le));
        (head + Ties(a[1..], c, le)) + Ties(b, c, le);
        Ties(a, c, le) + Ties(b, c, le);
      }
    }
  }

  lemma {:induction false} TiesNone<T>(s: seq<T>, c: T, le: (T, T) -> bool)
    requires forall k :: 0 <= k < |s| ==> !Tied(s[k], c, le)
    ensures Ties(s, c, le) == []
  {
    if s != [] {
      TiesNone(s[1..], c, le);
    }
  }

  lemma {:induction false} InsertTies<T(!new)>(x: T, s: seq<T>, c: T, le: (T, T) -> bool)
    requires TotalPreorder(le)
    requires Sorted(s, le)
    ensures Ties(Insert(x, s, le), c, le) == Ties(s, c, le) + Ties([x], c, le)
  {
    if s == [] {
      assert Ties(s, c, le) == [];
    } else if le(s[0], x) {
      var rest := s[1..];
      assert Sorted(rest, le) by {
        forall i, j | 0 <= i < j < |rest| ensures le(rest[i], rest[j]) {
          assert rest[i] == s[i + 1] && rest[j] == s[j + 1];
        }
      }
      assert [s[0]] + rest == s;
      calc {
        Ties(Insert(x, s, le), c, le);
        Ties([s[0]] + Insert(x, rest, le), c, le);
        { TiesAppend([s[0]], Insert(x, rest, le), c, le); }
        Ties([s[0]], c, le) + Ties(Insert(x, rest, le), c, le);
        { InsertTies(x, rest, c, le); }
        Ties([s[0]], c, le) + (Ties(rest, c, le) + Ties([x], c, le));
        (Ties([s[0]], c, le) + Ties(rest, c, le)) + Ties([x], c, le);
        { TiesAppend([s[0]], rest, c, le); }
        Ties(s, c, le) + Ties([x], c, le);
      }
    } else {
      TiesAppend([x], s, c, le);
      if Tied(x, c, le) {
        NoTiesAfter(x, s, c, le);
      } else {
        assert Ties([x], c, le) == [];
      }
    }
  }

  /**
   * When `x` goes before a sorted `s` and `x` is tied with `c`, nothing in
   * `s` is tied with `c`: ties of `c` are never split by the insert.
   */
  lemma NoTiesAfter<T(!new)>(x: T, s: seq<T>, c: T, le: (T, T) -> bool)
    requires TotalPreorder(le)
    requires Sorted(s, le) && s != [] && !le(s[0], x) && Tied(x, c, le)
    ensures Ties(s, c, le) == []
  {
    forall k | 0 <= k < |s| ensures !Tied(s[k], c, le) {
      if k > 0 {
        assert le(s[0], s[k]);
      }
    }
    TiesNone(s, c, le);
  }

  /**
   * Stability: the elements tied with any `c` keep their relative order, so
   * among equal keys the first one met in the input comes first.
   */
  lemma {:induction false} SortStable<T(!new)>(s: seq<T>, c: T, le: (T, T) -> bool)
    requires TotalPreorder(le)
    ensures Ties(Sort(s, le), c, le) == Ties(s, c, le)
  {
    if s != [] {
      var init, last := s[..|s| - 1], s[|s| - 1];
      assert s == init + [last];
      calc {
        Ties(Sort(s, le), c, le);
        Ties(Insert(last, Sort(init, le), le), c, le);
        { InsertSortedTies(last, init, c, le); }
        Ties(Sort(init, le), c, le) + Ties([last], c, le);
        { SortStable(init, c, le); }
        Ties(init, c, le) + Ties([last], c, le);
        { TiesAppend(init, [last], c, le); }
        Ties(s, c, le);
      }
    }
  }

  /** `InsertTies` for the sorted prefix that `Sort` builds. */
  lemma InsertSortedTies<T(!new)>(x: T, s: seq<T>, c: T, le: (T, T) -> bool)
    requires TotalPreorder(le)
    ensures Ties(Insert(x, Sort(s, le), le), c, le) == Ties(Sort(s, le), c, le) + Ties([x], c, le)
  {
    SortSorted(s, le);
    InsertTies(x, Sort(s, le), c, le);
  }
}
