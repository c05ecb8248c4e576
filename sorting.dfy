/** Python's `sorted` and `list.sort`: a stable sort under a key order. The order is a
    total preorder (any two elements compare, and comparison chains), so equal keys
    may belong to different elements; a stable sort keeps those in input order. */
module Sorting {

  ghost predicate Total<T(!new)>(leq: (T, T) -> bool)
  {
    forall a, b :: leq(a, b) || leq(b, a)
  }

  ghost predicate Transitive<T(!new)>(leq: (T, T) -> bool)
  {
    forall a, b, c :: leq(a, b) && leq(b, c) ==> leq(a, c)
  }

  ghost predicate TotalPreorder<T(!new)>(leq: (T, T) -> bool)
  {
    Total(leq) && Transitive(leq)
  }

  /** Each element is no greater than the next. */
  predicate Ascending<T>(s: seq<T>, leq: (T, T) -> bool)
  {
    forall i :: 0 <= i < |s| - 1 ==> leq(s[i], s[i + 1])
  }

  /** Every element is no greater than any later one. */
  predicate Pairwise<T>(s: seq<T>, leq: (T, T) -> bool)
  {
    forall i, j :: 0 <= i < j < |s| ==> leq(s[i], s[j])
  }

  /** Under a transitive order, neighbours in order means every pair in order. */
  lemma {:induction false} AscendingPairs<T(!new)>(s: seq<T>, leq: (T, T) -> bool)
    requires Transitive(leq) && Ascending(s, leq)
    ensures Pairwise(s, leq)
    decreases |s|
  {
    if |s| > 1 {
      var front := s[..|s| - 1];
      assert Ascending(front, leq) by {
        forall i | 0 <= i < |front| - 1 ensures leq(front[i], front[i + 1]) {
          assert front[i] == s[i] && front[i + 1] == s[i + 1];
        }
      }
      AscendingPairs(front, leq);
      forall i, j | 0 <= i < j < |s| ensures leq(s[i], s[j]) {
        if j < |s| - 1 {
          assert front[i] == s[i] && front[j] == s[j];
        } else if i < |s| - 2 {
          assert front[i] == s[i] && front[|s| - 2] == s[|s| - 2];
          assert leq(s[i], s[|s| - 2]);
        }
      }
    }
  }

  /** Inserting `x` into a sorted list after every element not above it. */
  function Insert<T(!new)>(x: T, s: seq<T>, leq: (T, T) -> bool): (r: seq<T>)
    requires Total(leq) && Ascending(s, leq)
    ensures Ascending(r, leq)
    ensures multiset(r) == multiset(s) + multiset{x}
    ensures |r| == |s| + 1
    ensures r[0] == x || (s != [] && r[0] == s[0])
    decreases |s|
  {
    if s == [] then [x]
    else if !leq(s[0], x) then
      [x] + s
    else
      var rest := Insert(x, s[1..], leq);
      assert s == [s[0]] + s[1..];
      [s[0]] + rest
  }

  /** The stable insertion sort. */
  function Sort<T(!new)>(s: seq<T>, leq: (T, T) -> bool): (r: seq<T>)
    requires Total(leq)
    ensures Ascending(r, leq)
    ensures multiset(r) == multiset(s)
    ensures |r| == |s|
    decreases |s|
  {
    if s == [] then []
    else
      assert s == s[..|s| - 1] + [s[|s| - 1]];
      Insert(s[|s| - 1], Sort(s[..|s| - 1], leq), leq)
  }

  /** Stability at the end: an element not below any element of a sorted list goes
      after all of them. */
  lemma {:induction false} InsertAtEnd<T(!new)>(x: T, s: seq<T>, leq: (T, T) -> bool)
    requires Total(leq) && Ascending(s, leq)
    requires forall k :: 0 <= k < |s| ==> leq(s[k], x)
    ensures Insert(x, s, leq) == s + [x]
    decreases |s|
  {
    if s != [] {
      TailBelow(x, s, leq);
      InsertAtEnd(x, s[1..], leq);
      InsertAfterHead(x, s, leq);
      ConsSnoc(s, x);
    }
  }

  lemma TailBelow<T>(x: T, s: seq<T>, leq: (T, T) -> bool)
    requires s != [] && Ascending(s, leq)
    requires forall k :: 0 <= k < |s| ==> leq(s[k], x)
    ensures Ascending(s[1..], leq)
    ensures forall k :: 0 <= k < |s[1..]| ==> leq(s[1..][k], x)
  {
    assert forall k :: 0 <= k < |s| - 1 ==> s[1..][k] == s[k + 1];
  }

  lemma InsertAfterHead<T(!new)>(x: T, s: seq<T>, leq: (T, T) -> bool)
    requires Total(leq) && Ascending(s, leq) && s != [] && leq(s[0], x)
    ensures Ascending(s[1..], leq)
    ensures Insert(x, s, leq) == [s[0]] + Insert(x, s[1..], leq)
  {
    assert forall k :: 0 <= k < |s| - 1 ==> s[1..][k] == s[k + 1];
  }

  lemma ConsSnoc<T>(s: seq<T>, x: T)
    requires s != []
    ensures [s[0]] + (s[1..] + [x]) == s + [x]
  {
    SplitFirst(s);
  }

  /** A list that is already in order comes out of the sort unchanged. */
  lemma {:induction false} SortKeepsAscending<T(!new)>(s: seq<T>, leq: (T, T) -> bool)
    requires Total(leq) && Pairwise(s, leq)
    ensures Sort(s, leq) == s
    decreases |s|
  {
    if s != [] {
      var front, x := s[..|s| - 1], s[|s| - 1];
      FrontPairwise(s, leq);
      SortKeepsAscending(front, leq);
      SortLast(s, leq);
      InsertAtEnd(x, front, leq);
      SplitLast(s);
    }
  }

  lemma FrontPairwise<T>(s: seq<T>, leq: (T, T) -> bool)
    requires s != [] && Pairwise(s, leq)
    ensures Pairwise(s[..|s| - 1], leq)
    ensures forall k :: 0 <= k < |s| - 1 ==> leq(s[k], s[|s| - 1])
  {
  }

  lemma SortLast<T(!new)>(s: seq<T>, leq: (T, T) -> bool)
    requires Total(leq) && s != []
    ensures Sort(s, leq) == Insert(s[|s| - 1], Sort(s[..|s| - 1], leq), leq)
  {
  }

  lemma SplitLast<T>(s: seq<T>)
    requires s != []
    ensures s == s[..|s| - 1] + [s[|s| - 1]]
  {
  }

  /** Two sorted lists holding the same elements are equal when the order is
      antisymmetric: under a total order the sorted list is unique. */
  lemma {:induction false} AscendingUnique<T(!new)>(a: seq<T>, b: seq<T>, leq: (T, T) -> bool)
    requires forall x, y :: leq(x, y) && leq(y, x) ==> x == y
    requires Pairwise(a, leq) && Pairwise(b, leq) && multiset(a) == multiset(b)
    ensures a == b
    decreases |a|
  {
    if a != [] {
      SameHead(a, b, leq);
      TailPairwise(a, leq);
      TailPairwise(b, leq);
      AscendingUnique(a[1..], b[1..], leq);
      SplitFirst(a);
      SplitFirst(b);
    }
  }

  /** The least elements of two sorted lists with the same elements coincide. */
  lemma SameHead<T(!new)>(a: seq<T>, b: seq<T>, leq: (T, T) -> bool)
    requires forall x, y :: leq(x, y) && leq(y, x) ==> x == y
    requires Pairwise(a, leq) && Pairwise(b, leq) && multiset(a) == multiset(b)
    requires a != []
    ensures b != [] && a[0] == b[0]
    ensures multiset(a[1..]) == multiset(b[1..])
  {
    assert |b| == |multiset(b)| == |a|;
    assert a[0] in multiset(b) && b[0] in multiset(a);
    var i :| 0 <= i < |b| && b[i] == a[0];
    var j :| 0 <= j < |a| && a[j] == b[0];
    if i != 0 && j != 0 {
      assert leq(b[0], b[i]) && leq(a[0], a[j]);
    }
    SplitFirst(a);
    SplitFirst(b);
    assert multiset(a[1..]) == multiset(a) - multiset{a[0]};
    assert multiset(b[1..]) == multiset(b) - multiset{b[0]};
  }

  lemma TailPairwise<T>(s: seq<T>, leq: (T, T) -> bool)
    requires s != [] && Pairwise(s, leq)
    ensures Pairwise(s[1..], leq)
  {
    assert forall k :: 0 <= k < |s| - 1 ==> s[1..][k] == s[k + 1];
  }

  lemma SplitFirst<T>(s: seq<T>)
    requires s != []
    ensures s == [s[0]] + s[1..]
  {
  }

  /** `a` and `b` have equal keys: each is no greater than the other. */
  predicate Tied<T>(a: T, b: T, leq: (T, T) -> bool)
  {
    leq(a, b) && leq(b, a)
  }

  /** The elements of `s` whose key equals that of `k`, in the order of `s`. */
  function TiedWith<T>(s: seq<T>, k: T, leq: (T, T) -> bool): (r: seq<T>)
    ensures |r| <= |s|
    ensures forall x :: x in r ==> x in s && Tied(x, k, leq)
    decreases |s|
  {
    if s == [] then []
    else (if Tied(s[0], k, leq) then [s[0]] else []) + TiedWith(s[1..], k, leq)
  }

  lemma {:induction false} TiedWithAppend<T>(a: seq<T>, b: seq<T>, k: T, leq: (T, T) -> bool)
    ensures TiedWith(a + b, k, leq) == TiedWith(a, k, leq) + TiedWith(b, k, leq)
    decreases |a|
  {
    if a == [] {
      assert a + b == b;
    } else {
      var head := if Tied(a[0], k, leq) then [a[0]] else [];
      assert (a + b)[0] == a[0];
      assert (a + b)[1..] == a[1..] + b;
      TiedWithAppend(a[1..], b, k, leq);
      calc {
        TiedWith(a + b, k, leq);
        head + TiedWith(a[1..] + b, k, leq);
        head + (TiedWith(a[1..], k, leq) + TiedWith(b, k, leq));
        (head + TiedWith(a[1..], k, leq)) + TiedWith(b, k, leq);
      }
    }
  }

  /** Inserting `x` puts it after every element already tied with it. */
  lemma {:induction false} InsertTied<T(!new)>(x: T, s: seq<T>, k: T, leq: (T, T) -> bool)
    requires TotalPreorder(leq) && Ascending(s, leq)
    ensures TiedWith(Insert(x, s, leq), k, leq) ==
      TiedWith(s, k, leq) + (if Tied(x, k, leq) then [x] else [])
    decreases |s|
  {
    if s == [] {
    } else if !leq(s[0], x) {
      assert Insert(x, s, leq) == [x] + s;
      assert ([x] + s)[1..] == s;
      if Tied(x, k, leq) {
        AscendingPairs(s, leq);
        NoneTied(x, s, k, leq);
      }
    } else {
      var rest := s[1..];
      assert s == [s[0]] + rest;
      assert Ascending(rest, leq);
      InsertTied(x, rest, k, leq);
      assert Insert(x, s, leq) == [s[0]] + Insert(x, rest, leq);
      assert ([s[0]] + Insert(x, rest, leq))[1..] == Insert(x, rest, leq);
    }
  }

  /** Nothing tied with `k` follows an element above `x` when `x` is tied with `k`. */
  lemma {:induction false} NoneTied<T(!new)>(x: T, s: seq<T>, k: T, leq: (T, T) -> bool)
    requires TotalPreorder(leq) && Pairwise(s, leq) && s != [] && !leq(s[0], x)
    requires Tied(x, k, leq)
    ensures TiedWith(s, k, leq) == []
  {
    forall j | 0 <= j < |s| ensures !Tied(s[j], k, leq) {
      assert j == 0 || leq(s[0], s[j]);
      assert !leq(s[j], x);
    }
    UntiedEmpty(s, k, leq);
  }

  lemma {:induction false} UntiedEmpty<T>(s: seq<T>, k: T, leq: (T, T) -> bool)
    requires forall j :: 0 <= j < |s| ==> !Tied(s[j], k, leq)
    ensures TiedWith(s, k, leq) == []
    decreases |s|
  {
    if s != [] {
      assert forall j :: 0 <= j < |s| - 1 ==> s[1..][j] == s[j + 1];
      UntiedEmpty(s[1..], k, leq);
    }
  }

  /** The sort is stable: the elements tied with any `k` come out in input order. */
  lemma {:induction false} SortStable<T(!new)>(s: seq<T>, k: T, leq: (T, T) -> bool)
    requires TotalPreorder(leq)
    ensures TiedWith(Sort(s, leq), k, leq) == TiedWith(s, k, leq)
    decreases |s|
  {
    if s != [] {
      var front, last := s[..|s| - 1], s[|s| - 1];
      var sorted := Sort(front, leq);
      SortLast(s, leq);
      SortStable(front, k, leq);
      InsertTied(last, sorted, k, leq);
      SplitLast(s);
      TiedWithAppend(front, [last], k, leq);
      assert TiedWith([last], k, leq) == (if Tied(last, k, leq) then [last] else []) by {
        assert [last][1..] == [];
      }
    }
  }
}
