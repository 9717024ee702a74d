/**
 Stable sorting as Python's `sorted` performs it, with the facts every user of
 it needs: the result is ordered, it is a rearrangement of the input, and under
 an antisymmetric order it does not depend on how the input was arranged.
 */
module Sorting {
  import opened Lists

  /** `leq` is a total preorder. */
  ghost predicate TotalPreorder<T(!new)>(leq: (T, T) -> bool) {
    && (forall a, b :: leq(a, b) || leq(b, a))
    && (forall a, b, c :: leq(a, b) && leq(b, c) ==> leq(a, c))
  }

  ghost predicate Ordered<T>(s: seq<T>, leq: (T, T) -> bool) {
    forall i, j :: 0 <= i < j < |s| ==> leq(s[i], s[j])
  }

  /** Places `x` before every element it may precede: `x` came first in the input. */
  function Insert<T>(x: T, s: seq<T>, leq: (T, T) -> bool): seq<T> {
    if s == [] then [x]
    else if leq(x, s[0]) then [x] + s
    else [s[0]] + Insert(x, s[1..], leq)
  }

  function Sort<T>(s: seq<T>, leq: (T, T) -> bool): seq<T> {
    if s == [] then [] else Insert(s[0], Sort(s[1..], leq), leq)
  }

  lemma {:induction false} InsertKeeps<T>(x: T, s: seq<T>, leq: (T, T) -> bool)
    ensures multiset(Insert(x, s, leq)) == multiset{x} + multiset(s)
  {
    if s == [] {
    } else {
      assert s == [s[0]] + s[1..];
      if !leq(x, s[0]) {
        InsertKeeps(x, s[1..], leq);
      }
    }
  }

  lemma {:induction false} InsertOrdered<T(!new)>(x: T, s: seq<T>, leq: (T, T) -> bool)
    requires TotalPreorder(leq) && Ordered(s, leq)
    ensures Ordered(Insert(x, s, leq), leq)
  {
    if s != [] && !leq(x, s[0]) {
      var rest := Insert(x, s[1..], leq);
      InsertOrdered(x, s[1..], leq);
      InsertKeeps(x, s[1..], leq);
      forall j | 0 <= j < |rest| ensures leq(s[0], rest[j]) {
        assert rest[j] in multiset(rest);
        if rest[j] != x {
          assert rest[j] in multiset(s[1..]);
          assert rest[j] in s[1..];
        }
      }
    }
  }

  /** Sorting rearranges: nothing is lost and nothing is invented. */
  lemma {:induction false} SortKeeps<T>(s: seq<T>, leq: (T, T) -> bool)
    ensures multiset(Sort(s, leq)) == multiset(s)
    ensures |Sort(s, leq)| == |s|
  {
    if s != [] {
      SortKeeps(s[1..], leq);
      InsertKeeps(s[0], Sort(s[1..], leq), leq);
      assert s == [s[0]] + s[1..];
    }
    assert |multiset(Sort(s, leq))| == |Sort(s, leq)|;
    assert |multiset(s)| == |s|;
  }

  lemma {:induction false} SortOrdered<T(!new)>(s: seq<T>, leq: (T, T) -> bool)
    requires TotalPreorder(leq)
    ensures Ordered(Sort(s, leq), leq)
  {
    if s != [] {
      SortOrdered(s[1..], leq);
      InsertOrdered(s[0], Sort(s[1..], leq), leq);
    }
  }

  lemma SortMembers<T>(s: seq<T>, leq: (T, T) -> bool)
    ensures forall x :: x in Sort(s, leq) <==> x in s
  {
    SortKeeps(s, leq);
    forall x ensures x in Sort(s, leq) <==> x in s {
      assert x in Sort(s, leq) <==> x in multiset(Sort(s, leq));
      assert x in s <==> x in multiset(s);
    }
  }

  /** No two different elements of `s` tie under `leq`. */
  ghost predicate NoTies<T>(s: seq<T>, leq: (T, T) -> bool) {
    forall a, b :: a in s && b in s && leq(a, b) && leq(b, a) ==> a == b
  }

  /** Two ordered arrangements of the same elements are the same list when nothing ties. */
  lemma {:induction false} OrderedUnique<T(!new)>(s: seq<T>, t: seq<T>, leq: (T, T) -> bool)
    requires TotalPreorder(leq) && NoTies(s, leq)
    requires Ordered(s, leq) && Ordered(t, leq) && multiset(s) == multiset(t)
    ensures s == t
    decreases |s|
  {
    assert |multiset(s)| == |s| && |multiset(t)| == |t|;
    if s != [] {
      HeadOut(s);
      HeadOut(t);
      assert s[0] == t[0] by {
        assert t[0] in s && s[0] in t;
        assert leq(s[0], t[0]) && leq(t[0], s[0]);
      }
      OrderedUnique(s[1..], t[1..], leq);
    }
  }

  /** Elements that tie keep the order they arrived in, so that order shows in the result. */
  lemma {:induction false} TiesKeepOrder<T(!new)>(x: T, y: T, s: seq<T>, leq: (T, T) -> bool)
    requires TotalPreorder(leq) && leq(x, y) && leq(y, x) && x != y
    ensures Insert(x, Insert(y, s, leq), leq) != Insert(y, Insert(x, s, leq), leq)
  {
    if s != [] && !leq(x, s[0]) {
      TiesKeepOrder(x, y, s[1..], leq);
      assert !leq(y, s[0]);
      var p, q := Insert(x, s[1..], leq), Insert(y, s[1..], leq);
      assert Insert(x, Insert(y, s, leq), leq)[1..] == Insert(x, q, leq) by { assert ([s[0]] + q)[1..] == q; }
      assert Insert(y, Insert(x, s, leq), leq)[1..] == Insert(y, p, leq) by { assert ([s[0]] + p)[1..] == p; }
    } else {
      assert Insert(x, Insert(y, s, leq), leq)[0] == x;
      assert Insert(y, Insert(x, s, leq), leq)[0] == y;
    }
  }

  /** Whatever order the elements arrive in, the sorted list is the same. */
  lemma SortOfRearrangement<T(!new)>(s: seq<T>, t: seq<T>, leq: (T, T) -> bool)
    requires TotalPreorder(leq) && NoTies(s, leq)
    requires multiset(s) == multiset(t)
    ensures Sort(s, leq) == Sort(t, leq)
  {
    SortKeeps(s, leq);
    SortKeeps(t, leq);
    SortOrdered(s, leq);
    SortOrdered(t, leq);
    SortMembers(s, leq);
    OrderedUnique(Sort(s, leq), Sort(t, leq), leq);
  }
}
