/**
 List facts shared by the other modules.
 */
module Lists {

  /** The lists `f` makes of the elements of `s`, joined in order. */
  function FlatMap<S, T>(s: seq<S>, f: S -> seq<T>): seq<T> {
    if s == [] then [] else f(s[0]) + FlatMap(s[1..], f)
  }

  lemma {:induction false} FlatMapConcat<S, T>(a: seq<S>, b: seq<S>, f: S -> seq<T>)
    ensures FlatMap(a + b, f) == FlatMap(a, f) + FlatMap(b, f)
  {
    if a == [] {
      assert a + b == b;
    } else {
      FlatMapConcat(a[1..], b, f);
      assert (a + b)[1..] == a[1..] + b;
      Shift(f(a[0]), FlatMap(a[1..], f), FlatMap(b, f));
    }
  }

  /** Element by element, two lists make the same. */
  lemma {:induction false} FlatMapSame<S, U, T>(s: seq<S>, t: seq<U>, f: S -> seq<T>, g: U -> seq<T>)
    requires |s| == |t| && forall i :: 0 <= i < |s| ==> f(s[i]) == g(t[i])
    ensures FlatMap(s, f) == FlatMap(t, g)
  {
    if s != [] {
      FlatMapSame(s[1..], t[1..], f, g);
    }
  }

  /** A function of lists that works its way through what `f` makes, turning it into what `g` makes. */
  lemma {:induction false} FlatMapImage<S, T>(s: seq<S>, f: S -> seq<T>, g: S -> seq<T>, h: seq<T> -> seq<T>)
    requires h([]) == []
    requires forall i :: 0 <= i < |s| ==> h(f(s[i]) + FlatMap(s[i + 1..], f)) == g(s[i]) + h(FlatMap(s[i + 1..], f))
    ensures h(FlatMap(s, f)) == FlatMap(s, g)
  {
    if s != [] {
      var rest := s[1..];
      forall i | 0 <= i < |rest|
        ensures h(f(rest[i]) + FlatMap(rest[i + 1..], f)) == g(rest[i]) + h(FlatMap(rest[i + 1..], f))
      {
        assert rest[i] == s[i + 1] && rest[i + 1..] == s[i + 1 + 1..];
      }
      FlatMapImage(rest, f, g, h);
      assert s[0 + 1..] == rest;
    }
  }

  /** The elements that pass, in order. */
  function Filter<T>(s: seq<T>, keep: T -> bool): seq<T> {
    if s == [] then [] else (if keep(s[0]) then [s[0]] else []) + Filter(s[1..], keep)
  }

  lemma {:induction false} FilterNone<T>(s: seq<T>, keep: T -> bool)
    requires forall x :: x in s ==> !keep(x)
    ensures Filter(s, keep) == []
  {
    if s != [] {
      FilterNone(s[1..], keep);
    }
  }

  lemma {:induction false} FilterMembers<T>(s: seq<T>, keep: T -> bool, x: T)
    ensures x in Filter(s, keep) <==> x in s && keep(x)
  {
    if s != [] {
      FilterMembers(s[1..], keep, x);
      assert s == [s[0]] + s[1..];
    }
  }

  lemma {:induction false} FilterAll<T>(s: seq<T>, keep: T -> bool)
    requires forall x :: x in s ==> keep(x)
    ensures Filter(s, keep) == s
  {
    if s != [] {
      FilterAll(s[1..], keep);
      assert s == [s[0]] + s[1..];
    }
  }

  lemma {:induction false} FilterSame<T>(s: seq<T>, keep: T -> bool, other: T -> bool)
    requires forall x :: x in s ==> keep(x) == other(x)
    ensures Filter(s, keep) == Filter(s, other)
  {
    if s != [] {
      FilterSame(s[1..], keep, other);
    }
  }

  lemma {:induction false} FilterConcat<T>(a: seq<T>, b: seq<T>, keep: T -> bool)
    ensures Filter(a + b, keep) == Filter(a, keep) + Filter(b, keep)
  {
    if a == [] {
      assert a + b == b;
    } else {
      FilterConcat(a[1..], b, keep);
      assert (a + b)[1..] == a[1..] + b;
      var first := if keep(a[0]) then [a[0]] else [];
      assert Filter(a + b, keep) == first + (Filter(a[1..], keep) + Filter(b, keep));
      assert Filter(a, keep) == first + Filter(a[1..], keep);
    }
  }

  lemma {:induction false} FilterCount<T>(s: seq<T>, keep: T -> bool, x: T)
    ensures multiset(Filter(s, keep))[x] == if keep(x) then multiset(s)[x] else 0
  {
    if s != [] {
      FilterCount(s[1..], keep, x);
      assert s == [s[0]] + s[1..];
    }
  }

  /** `i` cut back to the end of `s`, as Python's slicing does. */
  function Clip<T>(s: seq<T>, i: nat): (c: nat)
    ensures c <= |s|
  {
    if i < |s| then i else |s|
  }

  /** Appending `x` now or prepending it to what follows is the same. */
  lemma Shift<T>(before: seq<T>, x: seq<T>, rest: seq<T>)
    ensures before + (x + rest) == (before + x) + rest
  {
  }

  lemma Uncons<T>(s: seq<T>, rest: seq<T>)
    requires s != []
    ensures s + rest == [s[0]] + (s[1..] + rest)
  {
  }

  /** Takes one occurrence of `x` out of `s`. */
  lemma Extract<T>(s: seq<T>, x: T) returns (k: nat)
    requires x in multiset(s)
    ensures k < |s| && s[k] == x
    ensures s == s[..k] + ([x] + s[k + 1..])
    ensures multiset(s[..k] + s[k + 1..]) == multiset(s) - multiset{x}
  {
    k :| 0 <= k < |s| && s[k] == x;
    assert s == s[..k] + ([x] + s[k + 1..]);
  }

  lemma HeadOut<T>(s: seq<T>)
    requires s != []
    ensures s == [s[0]] + s[1..] && multiset(s[1..]) == multiset(s) - multiset{s[0]} && s[0] in multiset(s)
  {
    assert s == [s[0]] + s[1..];
  }

  /** Rearranging a list rearranges what is made of it. */
  lemma {:induction false} FlatMapRearranged<S, T>(a: seq<S>, b: seq<S>, f: S -> seq<T>)
    requires multiset(a) == multiset(b)
    ensures multiset(FlatMap(a, f)) == multiset(FlatMap(b, f))
    decreases |a|
  {
    if a == [] {
      assert |multiset(b)| == |b|;
    } else {
      HeadOut(a);
      var k := Extract(b, a[0]);
      FlatMapRearranged(a[1..], b[..k] + b[k + 1..], f);
      FlatMapConcat([a[0]], a[1..], f);
      FlatMapConcat([a[0]], b[k + 1..], f);
      FlatMapConcat(b[..k], [a[0]] + b[k + 1..], f);
      FlatMapConcat(b[..k], b[k + 1..], f);
    }
  }
}
