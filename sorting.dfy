/**
 * `Array.prototype.sort` with a comparator, which ECMAScript requires to be
 * stable: elements are ordered by a total preorder and elements the
 * comparator calls equal keep their original order.
 */
module Sorting {

  /** `le(a, b)` holds when the comparator does not put `b` before `a`. */
  ghost predicate TotalPreorder<T(!new)>(le: (T, T) -> bool) {
    (forall a, b :: le(a, b) || le(b, a)) &&
    (forall a, b, c :: le(a, b) && le(b, c) ==> le(a, c))
  }

  predicate Sorted<T>(s: seq<T>, le: (T, T) -> bool) {
    forall i, j :: 0 <= i < j < |s| ==> le(s[i], s[j])
  }

  /** Places `x` after every element of the sorted `s` that is not greater than it. */
  function Insert<T>(x: T, s: seq<T>, le: (T, T) -> bool): (r: seq<T>)
    ensures multiset(r) == multiset(s) + multiset{x}
    ensures |r| == |s| + 1
  {
    if s == [] then [x]
    else if le(s[0], x) then
      assert s == [s[0]] + s[1..];
      [s[0]] + Insert(x, s[1..], le)
    else [x] + s
  }

  /** Stable insertion sort: the sorted permutation of `s` that keeps equal elements in order. */
  function Sort<T>(s: seq<T>, le: (T, T) -> bool): (r: seq<T>)
    ensures multiset(r) == multiset(s)
    ensures |r| == |s|
  {
    if s == [] then []
    else
      assert s == s[..|s| - 1] + [s[|s| - 1]];
      Insert(s[|s| - 1], Sort(s[..|s| - 1], le), le)
  }

  lemma {:induction false} InsertSorted<T(!new)>(x: T, s: seq<T>, le: (T, T) -> bool)
    requires TotalPreorder(le) && Sorted(s, le)
    ensures Sorted(Insert(x, s, le), le)
  {
    if s != [] && le(s[0], x) {
      InsertSorted(x, s[1..], le);
      var r := Insert(x, s[1..], le);
      forall k | 0 <= k < |r| ensures le(s[0], r[k]) {
        assert r[k] in multiset(r);
        assert r[k] in multiset(s[1..]) || r[k] == x;
        if r[k] != x {
          var m :| 0 <= m < |s[1..]| && s[1..][m] == r[k];
          assert le(s[0], s[m + 1]);
        }
      }
    } else if s != [] {
      assert le(x, s[0]);
    }
  }

  /** The result is ordered by the comparator. */
  lemma {:induction false} SortSorted<T(!new)>(s: seq<T>, le: (T, T) -> bool)
    requires TotalPreorder(le)
    ensures Sorted(Sort(s, le), le)
  {
    if s != [] {
      SortSorted(s[..|s| - 1], le);
      InsertSorted(s[|s| - 1], Sort(s[..|s| - 1], le), le);
    }
  }

  /** The comparator calls `a` and `b` equal. */
  predicate Tied<T>(a: T, b: T, le: (T, T) -> bool) {
    le(a, b) && le(b, a)
  }

  /** `[e]` when the comparator calls `e` equal to `x`, otherwise nothing. */
  function Keep<T>(e: T, x: T, le: (T, T) -> bool): seq<T> {
    if Tied(e, x, le) then [e] else []
  }

  /** The elements of `s` the comparator calls equal to `x`, in their order in `s`. */
  function Class<T>(s: seq<T>, x: T, le: (T, T) -> bool): seq<T> {
    if s == [] then [] else Keep(s[0], x, le) + Class(s[1..], x, le)
  }

  lemma ClassCons<T>(a: T, r: seq<T>, x: T, le: (T, T) -> bool)
    ensures Class([a] + r, x, le) == Keep(a, x, le) + Class(r, x, le)
  {
    assert ([a] + r)[0] == a && ([a] + r)[1..] == r;
  }

  lemma Assoc<T>(a: seq<T>, b: seq<T>, c: seq<T>)
    ensures a + (b + c) == (a + b) + c
  {
  }

  lemma {:induction false} ClassAppend<T>(a: seq<T>, b: seq<T>, x: T, le: (T, T) -> bool)
    ensures Class(a + b, x, le) == Class(a, x, le) + Class(b, x, le)
    decreases |a|
  {
    if a == [] {
      assert a + b == b;
    } else {
      var t := a[1..];
      assert a == [a[0]] + t;
      Assoc([a[0]], t, b);
      ClassCons(a[0], t + b, x, le);
      ClassCons(a[0], t, x, le);
      ClassAppend(t, b, x, le);
      Assoc(Keep(a[0], x, le), Class(t, x, le), Class(b, x, le));
    }
  }

  lemma {:induction false} ClassNone<T>(s: seq<T>, x: T, le: (T, T) -> bool)
    requires forall i :: 0 <= i < |s| ==> !Tied(s[i], x, le)
    ensures Class(s, x, le) == []
    decreases |s|
  {
    if s != [] {
      assert forall i :: 0 <= i < |s[1..]| ==> s[1..][i] == s[i + 1];
      ClassNone(s[1..], x, le);
    }
  }

  /** Inserting `y` adds it at the end of its class and leaves every other class as it was. */
  lemma {:induction false} InsertClass<T(!new)>(y: T, s: seq<T>, x: T, le: (T, T) -> bool)
    requires TotalPreorder(le) && Sorted(s, le)
    ensures Class(Insert(y, s, le), x, le) == Class(s, x, le) + Keep(y, x, le)
    decreases |s|
  {
    if s == [] {
      assert Insert(y, s, le) == [y] + [];
      ClassCons(y, [], x, le);
    } else if le(s[0], y) {
      SortedTail(s, le);
      InsertClass(y, s[1..], x, le);
      assert Insert(y, s, le) == [s[0]] + Insert(y, s[1..], le);
      assert s == [s[0]] + s[1..];
      ClassPast(s[0], s[1..], Insert(y, s[1..], le), Keep(y, x, le), x, le);
    } else {
      InsertClassFront(y, s, x, le);
    }
  }

  lemma SortedTail<T>(s: seq<T>, le: (T, T) -> bool)
    requires Sorted(s, le) && s != []
    ensures Sorted(s[1..], le)
  {
    forall i, j | 0 <= i < j < |s[1..]| ensures le(s[1..][i], s[1..][j]) {
      assert s[1..][i] == s[i + 1] && s[1..][j] == s[j + 1];
    }
  }

  /** A common first element `h` is kept or dropped alike on both sides. */
  lemma ClassPast<T>(h: T, t: seq<T>, r: seq<T>, tail: seq<T>, x: T, le: (T, T) -> bool)
    requires Class(r, x, le) == Class(t, x, le) + tail
    ensures Class([h] + r, x, le) == Class([h] + t, x, le) + tail
  {
    ClassCons(h, r, x, le);
    ClassCons(h, t, x, le);
    Assoc(Keep(h, x, le), Class(t, x, le), tail);
  }

  /** The step of `InsertClass` where `y` goes in front: nothing in `s` is tied with it. */
  lemma InsertClassFront<T(!new)>(y: T, s: seq<T>, x: T, le: (T, T) -> bool)
    requires TotalPreorder(le) && Sorted(s, le) && s != [] && !le(s[0], y)
    ensures Class(Insert(y, s, le), x, le) == Class(s, x, le) + Keep(y, x, le)
  {
    assert Insert(y, s, le) == [y] + s;
    ClassCons(y, s, x, le);
    if Tied(y, x, le) {
      forall i | 0 <= i < |s| ensures !Tied(s[i], x, le) {
        assert i == 0 || le(s[0], s[i]);
      }
      ClassNone(s, x, le);
      assert [y] + [] == [] + [y];
    }
  }

  lemma InitLast<T>(s: seq<T>)
    requires s != []
    ensures s == s[..|s| - 1] + [s[|s| - 1]]
  {
  }

  /**
   * The sort is stable: the elements the comparator calls equal to any `x`
   * come out in the order they had in `s`.
   */
  lemma {:induction false} SortStable<T(!new)>(s: seq<T>, x: T, le: (T, T) -> bool)
    requires TotalPreorder(le)
    ensures Class(Sort(s, le), x, le) == Class(s, x, le)
    decreases |s|
  {
    if s != [] {
      var init := s[..|s| - 1];
      var last := s[|s| - 1];
      InitLast(s);
      SortStable(init, x, le);
      SortSorted(init, le);
      InsertClass(last, Sort(init, le), x, le);
      ClassAppend(init, [last], x, le);
      assert [last] == [last] + [];
      ClassCons(last, [], x, le);
    }
  }
}
