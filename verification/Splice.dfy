/**
 Bottom-up source splicing: the edit loop of scripts/dev/apply_sql_extraction.py.
 */
module Splice {
  import opened Lists
  import opened Sorting

  /** Replace `source[begin..end]` by `text`. */
  datatype Edit = Edit(begin: nat, end: nat, text: string)

  /** `source[:begin] + call + source[end:]`, with Python's clipping of the bounds. */
  function SpliceOne(source: string, e: Edit): string {
    source[..Clip(source, e.begin)] + e.text + source[Clip(source, e.end)..]
  }

  function ApplyAll(source: string, edits: seq<Edit>): string
    decreases |edits|
  {
    if edits == [] then source else ApplyAll(SpliceOne(source, edits[0]), edits[1..])
  }

  predicate LaterFirst(a: Edit, b: Edit) { a.begin >= b.begin }
  predicate EarlierFirst(a: Edit, b: Edit) { a.begin <= b.begin }

  /** The spans are non-empty, lie in the source and do not overlap. */
  ghost predicate Disjoint(edits: seq<Edit>, n: nat) {
    && (forall i :: 0 <= i < |edits| ==> edits[i].begin < edits[i].end <= n)
    && (forall i, j :: 0 <= i < j < |edits| ==> edits[i].end <= edits[j].begin || edits[j].end <= edits[i].begin)
  }

  /** Left-to-right substitution in the original text: gaps from `pos` on, with the replacements between. */
  function Substitute(source: string, edits: seq<Edit>, pos: nat): string
    requires Ascending(source, edits, pos)
  {
    if edits == [] then source[pos..]
    else source[pos..edits[0].begin] + edits[0].text + Substitute(source, edits[1..], edits[0].end)
  }

  ghost predicate Ascending(source: string, edits: seq<Edit>, pos: nat) {
    if edits == [] then pos <= |source|
    else pos <= edits[0].begin <= edits[0].end <= |source| && Ascending(source, edits[1..], edits[0].end)
  }

  /** The edit loop of `main`. */
  method SpliceAll(text: string, edits: seq<Edit>) returns (source: string)
    ensures Disjoint(edits, |text|) ==>
              && Ascending(text, Sort(edits, EarlierFirst), 0)
              && source == Substitute(text, Sort(edits, EarlierFirst), 0)
    ensures source == ApplyAll(text, Sort(edits, LaterFirst))
  {
    source := text;
    var planned := Sort(edits, LaterFirst);
    var k := 0;
    while k < |planned|
      invariant 0 <= k <= |planned|
      invariant ApplyAll(source, planned[k..]) == ApplyAll(text, planned)
    {
      var e := planned[k];
      source := source[..Clip(source, e.begin)] + e.text + source[Clip(source, e.end)..];
      assert planned[k..][1..] == planned[k + 1..];
      k := k + 1;
    }
    if Disjoint(edits, |text|) {
      BottomUpIsSubstitution(text, edits);
    }
  }

  function Reverse<T>(s: seq<T>): (r: seq<T>)
    ensures |r| == |s|
    ensures forall i :: 0 <= i < |s| ==> r[i] == s[|s| - 1 - i]
  {
    if s == [] then [] else Reverse(s[1..]) + [s[0]]
  }

  lemma {:induction false} ReverseKeeps<T>(s: seq<T>)
    ensures multiset(Reverse(s)) == multiset(s)
  {
    if s != [] {
      ReverseKeeps(s[1..]);
      assert s == [s[0]] + s[1..];
    }
  }

  /** Two edits of one file that start at the same place are the same edit. */
  lemma DisjointNoTies(edits: seq<Edit>, n: nat)
    requires Disjoint(edits, n)
    ensures NoTies(edits, LaterFirst)
  {
  }

  /** Sorting from the bottom is sorting from the top, reversed. */
  lemma SortsOpposite(edits: seq<Edit>, up: seq<Edit>)
    requires NoTies(edits, LaterFirst) && Ordered(up, EarlierFirst) && multiset(up) == multiset(edits)
    ensures Sort(edits, LaterFirst) == Reverse(up)
  {
    SortKeeps(edits, LaterFirst);
    SortOrdered(edits, LaterFirst);
    SortMembers(edits, LaterFirst);
    ReverseKeeps(up);
    forall i, j | 0 <= i < j < |up| ensures LaterFirst(Reverse(up)[i], Reverse(up)[j]) {
      assert EarlierFirst(up[|up| - 1 - j], up[|up| - 1 - i]);
    }
    OrderedUnique(Sort(edits, LaterFirst), Reverse(up), LaterFirst);
  }

  predicate Apart(a: Edit, b: Edit) {
    a.end <= b.begin || b.end <= a.begin
  }

  ghost predicate AllApart(edits: seq<Edit>) {
    edits != [] ==> (forall e :: e in edits[1..] ==> Apart(edits[0], e)) && AllApart(edits[1..])
  }

  lemma {:induction false} DisjointApart(edits: seq<Edit>, n: nat)
    requires Disjoint(edits, n)
    ensures AllApart(edits)
  {
    if edits != [] {
      DisjointApart(edits[1..], n);
    }
  }

  lemma {:induction false} InsertApart(x: Edit, s: seq<Edit>)
    requires AllApart(s) && forall e :: e in s ==> Apart(x, e)
    ensures AllApart(Insert(x, s, EarlierFirst))
  {
    if s == [] || EarlierFirst(x, s[0]) {
      assert ([x] + s)[1..] == s;
    } else {
      var rest := Insert(x, s[1..], EarlierFirst);
      InsertApart(x, s[1..]);
      InsertKeeps(x, s[1..], EarlierFirst);
      assert Apart(x, s[0]);
      forall e | e in rest ensures Apart(s[0], e) {
        assert e in multiset(rest);
        assert e == x || e in s[1..];
      }
    }
  }

  lemma {:induction false} SortApart(s: seq<Edit>)
    requires AllApart(s)
    ensures AllApart(Sort(s, EarlierFirst))
  {
    if s != [] {
      SortApart(s[1..]);
      SortMembers(s[1..], EarlierFirst);
      InsertApart(s[0], Sort(s[1..], EarlierFirst));
    }
  }

  /** Ordered by position, disjoint spans form a chain. */
  lemma {:induction false} ChainAscending(source: string, edits: seq<Edit>, pos: nat)
    requires Ordered(edits, EarlierFirst) && AllApart(edits) && pos <= |source|
    requires forall e :: e in edits ==> pos <= e.begin < e.end <= |source|
    ensures Ascending(source, edits, pos)
  {
    if edits != [] {
      forall e | e in edits[1..] ensures edits[0].end <= e.begin {
        var j :| 0 < j < |edits| && e == edits[j];
        assert EarlierFirst(edits[0], edits[j]);
      }
      ChainAscending(source, edits[1..], edits[0].end);
    }
  }

  lemma {:induction false} ApplyAllConcat(source: string, a: seq<Edit>, b: seq<Edit>)
    ensures ApplyAll(source, a + b) == ApplyAll(ApplyAll(source, a), b)
    decreases |a|
  {
    if a == [] {
      assert a + b == b;
    } else {
      assert (a + b)[1..] == a[1..] + b;
      ApplyAllConcat(SpliceOne(source, a[0]), a[1..], b);
    }
  }

  lemma ApplyOne(source: string, e: Edit)
    ensures ApplyAll(source, [e]) == SpliceOne(source, e)
  {
    assert [e][1..] == [];
  }

  /** A splice whose span ends where the untouched text does. */
  lemma OneSplice(source: string, e: Edit, rest: string)
    requires e.begin <= e.end <= |source|
    ensures ApplyAll(source[..e.end] + rest, [e]) == source[..e.begin] + (e.text + rest)
  {
    var below := source[..e.end] + rest;
    ApplyOne(below, e);
    assert below[..e.begin] == source[..e.begin] && below[e.end..] == rest;
  }

  lemma Regroup(p: string, q: string, t: string, r: string)
    ensures p + (q + t + r) == (p + q) + (t + r)
  {
  }

  lemma SubstituteFirst(source: string, edits: seq<Edit>, pos: nat)
    requires edits != [] && Ascending(source, edits, pos)
    ensures source[..pos] + Substitute(source, edits, pos)
            == source[..edits[0].begin] + (edits[0].text + Substitute(source, edits[1..], edits[0].end))
  {
    var e, rest := edits[0], Substitute(source, edits[1..], edits[0].end);
    Regroup(source[..pos], source[pos..e.begin], e.text, rest);
    assert source[..pos] + source[pos..e.begin] == source[..e.begin];
  }

  /** No splice moves the span of an edit above it. */
  lemma {:induction false} BottomUp(source: string, edits: seq<Edit>, pos: nat)
    requires Ascending(source, edits, pos)
    ensures pos <= |source| && ApplyAll(source, Reverse(edits)) == source[..pos] + Substitute(source, edits, pos)
    decreases |edits|
  {
    if edits != [] {
      var e := edits[0];
      BottomUp(source, edits[1..], e.end);
      ApplyAllConcat(source, Reverse(edits[1..]), [e]);
      OneSplice(source, e, Substitute(source, edits[1..], e.end));
      SubstituteFirst(source, edits, pos);
    }
  }

  /** Splicing from the bottom equals substituting all spans at once. */
  lemma BottomUpIsSubstitution(source: string, edits: seq<Edit>)
    requires Disjoint(edits, |source|)
    ensures Ascending(source, Sort(edits, EarlierFirst), 0)
    ensures ApplyAll(source, Sort(edits, LaterFirst)) == Substitute(source, Sort(edits, EarlierFirst), 0)
  {
    var up := Sort(edits, EarlierFirst);
    SortKeeps(edits, EarlierFirst);
    SortOrdered(edits, EarlierFirst);
    SortMembers(edits, EarlierFirst);
    DisjointNoTies(edits, |source|);
    SortsOpposite(edits, up);
    DisjointApart(edits, |source|);
    SortApart(edits);
    ChainAscending(source, up, 0);
    BottomUp(source, up, 0);
  }

  /** The order in which the edits were listed does not matter. */
  lemma ArrivalOrderIrrelevant(source: string, edits: seq<Edit>, others: seq<Edit>)
    requires Disjoint(edits, |source|) && multiset(edits) == multiset(others)
    ensures ApplyAll(source, Sort(edits, LaterFirst)) == ApplyAll(source, Sort(others, LaterFirst))
  {
    SortOfRearrangement(edits, others, LaterFirst);
  }

  // ----- an edit listed twice

  /** What stands before and after an edit in a chain. */
  lemma {:induction false} AscendingAround(source: string, a: seq<Edit>, e: Edit, b: seq<Edit>, pos: nat)
    requires Ascending(source, a + [e] + b, pos)
    ensures e.begin <= e.end <= |source| && Ascending(source[..e.begin], a, pos) && Ascending(source, b, e.end)
    decreases |a|
  {
    if a == [] {
      assert a + [e] + b == [e] + b;
    } else {
      assert (a + [e] + b)[1..] == a[1..] + [e] + b;
      AscendingAround(source, a[1..], e, b, a[0].end);
      AscendingFrom(source[..e.begin], a[1..], a[0].end);
    }
  }

  lemma {:induction false} AscendingFrom(source: string, edits: seq<Edit>, pos: nat)
    requires Ascending(source, edits, pos)
    ensures pos <= |source| && forall d :: d in edits ==> pos <= d.begin <= d.end <= |source|
  {
    if edits != [] {
      AscendingFrom(source, edits[1..], edits[0].end);
    }
  }

  /** What follows all spans is left alone. */
  lemma {:induction false} SubstituteBefore(source: string, after: string, edits: seq<Edit>, pos: nat)
    requires Ascending(source, edits, pos)
    ensures Ascending(source + after, edits, pos)
    ensures Substitute(source + after, edits, pos) == Substitute(source, edits, pos) + after
  {
    if edits == [] {
      assert (source + after)[pos..] == source[pos..] + after;
    } else {
      SubstituteBefore(source, after, edits[1..], edits[0].end);
      assert (source + after)[pos..edits[0].begin] == source[pos..edits[0].begin];
    }
  }

  lemma BottomUpBefore(source: string, after: string, edits: seq<Edit>)
    requires Ascending(source, edits, 0)
    ensures ApplyAll(source + after, Reverse(edits)) == Substitute(source, edits, 0) + after
  {
    SubstituteBefore(source, after, edits, 0);
    BottomUp(source + after, edits, 0);
  }

  /** The second splice of an edit whose span has become `text + rest`. */
  lemma SecondSplice(before: string, text: string, rest: string, span: nat)
    ensures text + (text + rest)[Clip(text + rest, span)..] == text + rest
            <==> |text| == span || (|text| < span && rest == "")
  {
    var left := (text + rest)[Clip(text + rest, span)..];
    if text + left == text + rest {
      assert |left| == |rest|;
    }
    if |text| == span {
      assert left == rest;
    }
  }

  /** The edits after `e`, then `middle`, then those before `e`. */
  lemma ThreeParts(source: string, a: seq<Edit>, middle: seq<Edit>, b: seq<Edit>)
    ensures ApplyAll(source, Reverse(b) + middle + Reverse(a))
            == ApplyAll(ApplyAll(ApplyAll(source, Reverse(b)), middle), Reverse(a))
  {
    ApplyAllConcat(source, Reverse(b), middle);
    ApplyAllConcat(source, Reverse(b) + middle, Reverse(a));
  }

  lemma TwoSplices(source: string, e: Edit, rest: string)
    requires e.begin <= e.end <= |source|
    ensures ApplyAll(source[..e.end] + rest, [e, e])
            == source[..e.begin] + (e.text + (e.text + rest)[Clip(e.text + rest, e.end - e.begin)..])
  {
    assert [e, e] == [e] + [e];
    ApplyAllConcat(source[..e.end] + rest, [e], [e]);
    OneSplice(source, e, rest);
    ApplyOne(source[..e.begin] + (e.text + rest), e);
    SpliceAfter(source[..e.begin], e.text + rest, e);
  }

  /** A chain in which `e` comes twice, against the same chain with `e` once. */
  lemma ChainRepeated(source: string, a: seq<Edit>, e: Edit, b: seq<Edit>)
    requires Ascending(source, a + [e] + b, 0)
    ensures e.begin <= e.end && Ascending(source, b, e.end)
    ensures ApplyAll(source, Reverse(b) + [e, e] + Reverse(a)) == ApplyAll(source, Reverse(b) + [e] + Reverse(a))
            <==> || |e.text| == e.end - e.begin
                 || (|e.text| < e.end - e.begin && Substitute(source, b, e.end) == "")
  {
    AscendingAround(source, a, e, b, 0);
    var rest, before := Substitute(source, b, e.end), source[..e.begin];
    var left := (e.text + rest)[Clip(e.text + rest, e.end - e.begin)..];
    BottomUp(source, b, e.end);
    ThreeParts(source, a, [e], b);
    ThreeParts(source, a, [e, e], b);
    OneSplice(source, e, rest);
    TwoSplices(source, e, rest);
    BottomUpBefore(before, e.text + rest, a);
    BottomUpBefore(before, e.text + left, a);
    SecondSplice(before, e.text, rest, e.end - e.begin);
    SamePrefix(Substitute(before, a, 0), e.text + left, e.text + rest);
  }

  /** A splice that begins where `before` ends. */
  lemma SpliceAfter(before: string, after: string, e: Edit)
    requires e.begin == |before| && e.begin <= e.end
    ensures SpliceOne(before + after, e) == before + (e.text + after[Clip(after, e.end - e.begin)..])
  {
    assert (before + after)[..e.begin] == before;
    assert (before + after)[Clip(before + after, e.end)..] == after[Clip(after, e.end - e.begin)..];
  }

  lemma SamePrefix(before: string, s: string, t: string)
    ensures before + s == before + t <==> s == t
  {
    assert (before + s)[|before|..] == s && (before + t)[|before|..] == t;
  }

  /** Some edit replaces the character at `p` by nothing. */
  ghost predicate Erased(edits: seq<Edit>, p: nat) {
    exists d :: d in edits && d.begin <= p < d.end && d.text == ""
  }

  /** Nothing of the source from `pos` on is left, and nothing is put in its place. */
  ghost predicate NothingLeft(source: string, edits: seq<Edit>, pos: nat) {
    forall p :: pos <= p < |source| ==> Erased(edits, p)
  }

  lemma {:induction false} NothingLeftExactly(source: string, edits: seq<Edit>, pos: nat)
    requires Ascending(source, edits, pos) && forall d :: d in edits ==> d.begin < d.end
    ensures Substitute(source, edits, pos) == "" <==> NothingLeft(source, edits, pos)
  {
    if edits == [] {
      if pos < |source| {
        assert !Erased(edits, pos);
      }
    } else {
      var e, later := edits[0], edits[1..];
      assert edits == [e] + later;
      NothingLeftExactly(source, later, e.end);
      AscendingFrom(source, later, e.end);
      forall p: nat | e.end <= p ensures Erased(edits, p) <==> Erased(later, p) {}
      forall p: nat | p < e.end ensures Erased(edits, p) <==> e.begin <= p && e.text == "" {}
      if NothingLeft(source, edits, pos) {
        assert Erased(edits, pos) && Erased(edits, e.begin);
      }
    }
  }

  /**
   Nothing stops the same assignment from being listed twice. The second splice
   then cuts into the first replacement or into what follows it, unless the
   replacement has the length of the text it replaces, or is shorter and
   nothing is left to follow it.
   */
  lemma RepeatedEdit(source: string, edits: seq<Edit>, e: Edit)
    requires Disjoint(edits, |source|) && e in edits
    ensures ApplyAll(source, Sort(edits + [e], LaterFirst)) == ApplyAll(source, Sort(edits, LaterFirst))
            <==> || |e.text| == e.end - e.begin
                 || (|e.text| < e.end - e.begin && NothingLeft(source, edits, e.end))
  {
    var a, b := OnceAndTwice(source, edits, e);
    ChainRepeated(source, a, e, b);
    NothingLeftAfter(source, edits, a, e, b);
  }

  /** The edits around `e` in the order of their places, and the order in which the loop takes them. */
  lemma OnceAndTwice(source: string, edits: seq<Edit>, e: Edit) returns (a: seq<Edit>, b: seq<Edit>)
    requires Disjoint(edits, |source|) && e in edits
    ensures Ascending(source, a + [e] + b, 0) && Ordered(a + [e] + b, EarlierFirst)
    ensures forall d :: d in edits <==> d in a + [e] + b
    ensures Sort(edits, LaterFirst) == Reverse(b) + [e] + Reverse(a)
    ensures Sort(edits + [e], LaterFirst) == Reverse(b) + [e, e] + Reverse(a)
  {
    SortedChain(source, edits);
    a, b := Around(Sort(edits, EarlierFirst), e);
    OnceSorted(edits, a, e, b);
    TwiceSorted(edits, a, e, b);
  }

  lemma SortedChain(source: string, edits: seq<Edit>)
    requires Disjoint(edits, |source|)
    ensures var up := Sort(edits, EarlierFirst);
            && Ascending(source, up, 0) && Ordered(up, EarlierFirst)
            && multiset(up) == multiset(edits) && forall d :: d in edits <==> d in up
    ensures NoTies(edits, LaterFirst)
  {
    BottomUpIsSubstitution(source, edits);
    SortKeeps(edits, EarlierFirst);
    SortMembers(edits, EarlierFirst);
    SortOrdered(edits, EarlierFirst);
    DisjointNoTies(edits, |source|);
  }

  lemma OnceSorted(edits: seq<Edit>, a: seq<Edit>, e: Edit, b: seq<Edit>)
    requires NoTies(edits, LaterFirst) && Ordered(a + [e] + b, EarlierFirst)
    requires multiset(a + [e] + b) == multiset(edits)
    ensures Sort(edits, LaterFirst) == Reverse(b) + [e] + Reverse(a)
  {
    SortsOpposite(edits, a + [e] + b);
    ReverseAround(a, [e], b);
    ReversePair(e);
  }

  lemma NothingLeftAfter(source: string, edits: seq<Edit>, a: seq<Edit>, e: Edit, b: seq<Edit>)
    requires Disjoint(edits, |source|) && e in edits && Ascending(source, b, e.end)
    requires Ordered(a + [e] + b, EarlierFirst) && forall d :: d in edits <==> d in a + [e] + b
    ensures NothingLeft(source, edits, e.end) <==> Substitute(source, b, e.end) == ""
  {
    DisjointFrom(edits, |source|, e);
    assert forall d :: d in b ==> d in a + [e] + b;
    NothingLeftExactly(source, b, e.end);
    forall p: nat | e.end <= p ensures Erased(edits, p) <==> Erased(b, p) {
      ErasedLater(edits, a, e, b, p);
    }
  }

  lemma Around(up: seq<Edit>, e: Edit) returns (a: seq<Edit>, b: seq<Edit>)
    requires e in up
    ensures up == a + [e] + b
  {
    var k :| 0 <= k < |up| && up[k] == e;
    a, b := up[..k], up[k + 1..];
  }

  lemma DisjointFrom(edits: seq<Edit>, n: nat, e: Edit)
    requires Disjoint(edits, n) && e in edits
    ensures forall d :: d in edits ==> d.begin < d.end && (d == e || Apart(d, e))
  {
  }

  lemma TwiceOrdered(a: seq<Edit>, e: Edit, b: seq<Edit>)
    requires Ordered(a + [e] + b, EarlierFirst)
    ensures Ordered(a + [e, e] + b, EarlierFirst)
  {
    var up, twice := a + [e] + b, a + [e, e] + b;
    assert forall i :: 0 <= i <= |a| ==> twice[i] == up[i];
    assert forall i :: |a| < i < |twice| ==> twice[i] == up[i - 1];
    assert up[|a|] == e;
    forall i, j | 0 <= i < j < |twice| ensures EarlierFirst(twice[i], twice[j]) {
      var x, y := if i <= |a| then i else i - 1, if j <= |a| then j else j - 1;
      assert x < y ==> EarlierFirst(up[x], up[y]);
    }
  }

  lemma TwiceMembers(edits: seq<Edit>, a: seq<Edit>, e: Edit, b: seq<Edit>)
    requires multiset(a + [e] + b) == multiset(edits)
    ensures multiset(a + [e, e] + b) == multiset(edits + [e])
  {
    assert multiset(a + [e, e] + b) == multiset(a) + multiset{e, e} + multiset(b);
    assert multiset(a + [e] + b) == multiset(a) + multiset{e} + multiset(b);
  }

  lemma TwiceNoTies(edits: seq<Edit>, e: Edit)
    requires NoTies(edits, LaterFirst) && e in edits
    ensures NoTies(edits + [e], LaterFirst)
  {
    assert forall d :: d in edits + [e] ==> d in edits;
  }

  lemma ReversePair(e: Edit)
    ensures Reverse([e]) == [e] && Reverse([e, e]) == [e, e]
  {
  }

  lemma TwiceSorted(edits: seq<Edit>, a: seq<Edit>, e: Edit, b: seq<Edit>)
    requires NoTies(edits, LaterFirst) && Ordered(a + [e] + b, EarlierFirst)
    requires multiset(a + [e] + b) == multiset(edits) && e in edits
    ensures Sort(edits + [e], LaterFirst) == Reverse(b) + [e, e] + Reverse(a)
  {
    TwiceNoTies(edits, e);
    TwiceOrdered(a, e, b);
    TwiceMembers(edits, a, e, b);
    SortsOpposite(edits + [e], a + [e, e] + b);
    ReverseAround(a, [e, e], b);
    ReversePair(e);
  }

  lemma ReverseConcat(a: seq<Edit>, b: seq<Edit>)
    ensures Reverse(a + b) == Reverse(b) + Reverse(a)
  {
  }

  lemma ReverseAround(a: seq<Edit>, m: seq<Edit>, b: seq<Edit>)
    ensures Reverse(a + m + b) == Reverse(b) + Reverse(m) + Reverse(a)
  {
    ReverseConcat(a + m, b);
    ReverseConcat(a, m);
    assert Reverse(b) + (Reverse(m) + Reverse(a)) == Reverse(b) + Reverse(m) + Reverse(a);
  }

  /** An edit that ends by `p` and those before it erase nothing from there on. */
  lemma ErasedLater(edits: seq<Edit>, a: seq<Edit>, e: Edit, b: seq<Edit>, p: nat)
    requires Ordered(a + [e] + b, EarlierFirst) && p >= e.end
    requires forall d :: d in edits <==> d in a + [e] + b
    requires forall d :: d in edits ==> d.begin < d.end && (d == e || Apart(d, e))
    ensures Erased(edits, p) <==> Erased(b, p)
  {
    var up := a + [e] + b;
    assert forall i :: 0 <= i < |a| ==> up[i] == a[i] && EarlierFirst(up[i], up[|a|]);
    assert forall d :: d in a && d in edits ==> d.end <= p;
    forall d | d in edits && d.begin <= p < d.end ensures d in b {
      assert d in a || d == e || d in b;
    }
    assert forall d :: d in b ==> d in up;
  }

  /** A replacement longer than its span: the second splice leaves two characters of it behind. */
  lemma RepeatedEditDamages()
    ensures var e := Edit(0, 1, "xyz");
            ApplyAll("ab", Sort([e], LaterFirst)) == "xyzb" && ApplyAll("ab", Sort([e, e], LaterFirst)) == "xyzyzb"
  {
    var e := Edit(0, 1, "xyz");
    assert [e][1..] == [] && [e, e][1..] == [e];
    assert Sort([e], LaterFirst) == [e] && Sort([e, e], LaterFirst) == [e, e];
    assert SpliceOne("ab", e) == "xyzb" && SpliceOne("xyzb", e) == "xyzyzb";
    ApplyOne("ab", e);
    ApplyOne("xyzb", e);
  }

  // ----- where a span begins

  function Concat(lines: seq<string>): string {
    if lines == [] then "" else lines[0] + Concat(lines[1..])
  }

  lemma {:induction false} ConcatSplit(lines: seq<string>, k: nat)
    requires k <= |lines|
    ensures Concat(lines) == Concat(lines[..k]) + Concat(lines[k..])
  {
    if k == 0 {
      assert lines[0..] == lines;
    } else {
      ConcatSplit(lines[1..], k - 1);
      assert lines[..k][1..] == lines[1..][..k - 1];
    }
  }

  /** `starts`: the offset at which each line begins, and the end of the source. */
  method LineStarts(lines: seq<string>) returns (starts: seq<nat>)
    ensures |starts| == |lines| + 1
    ensures forall k :: 0 <= k < |starts| ==> starts[k] == |Concat(lines[..k])|
  {
    starts := [0];
    var n := 0;
    while n < |lines|
      invariant 0 <= n <= |lines| && |starts| == n + 1
      invariant forall k :: 0 <= k <= n ==> starts[k] == |Concat(lines[..k])|
    {
      ConcatSplit(lines[..n + 1], n);
      assert lines[..n + 1][..n] == lines[..n] && lines[..n + 1][n..] == [lines[n]];
      assert Concat([lines[n]]) == lines[n] + "";
      starts := starts + [starts[n] + |lines[n]|];
      n := n + 1;
    }
  }

  /** The text between two line and column positions. */
  function Between(lines: seq<string>, k: nat, c: nat, l: nat, d: nat): string
    requires k <= l < |lines| && c <= |lines[k]| && d <= |lines[l]| && (k == l ==> c <= d)
  {
    if k == l then lines[k][c..d] else lines[k][c..] + Concat(lines[k + 1..l]) + lines[l][..d]
  }

  lemma LineAt(lines: seq<string>, k: nat)
    requires k < |lines|
    ensures Concat(lines) == Concat(lines[..k]) + lines[k] + Concat(lines[k + 1..])
  {
    ConcatSplit(lines, k);
    assert lines[k..][1..] == lines[k + 1..];
  }

  lemma SpanInLine(lines: seq<string>, k: nat, c: nat, d: nat)
    requires k < |lines| && c <= d <= |lines[k]|
    ensures var start := |Concat(lines[..k])|;
            start + d <= |Concat(lines)| && Concat(lines)[start + c..start + d] == lines[k][c..d]
  {
    LineAt(lines, k);
    InMiddle(Concat(lines[..k]), lines[k], Concat(lines[k + 1..]), c, d);
  }

  lemma InMiddle(before: string, line: string, after: string, c: nat, d: nat)
    requires c <= d <= |line|
    ensures (before + line + after)[|before| + c..|before| + d] == line[c..d]
  {
  }

  lemma TwoLines(lines: seq<string>, k: nat, l: nat)
    requires k < l < |lines|
    ensures Concat(lines[..l]) == Concat(lines[..k]) + lines[k] + Concat(lines[k + 1..l])
    ensures Concat(lines) == Concat(lines[..k]) + lines[k] + Concat(lines[k + 1..l]) + lines[l] + Concat(lines[l + 1..])
  {
    LineAt(lines, l);
    LineAt(lines[..l], k);
    assert lines[..l][..k] == lines[..k] && lines[..l][k + 1..] == lines[k + 1..l] && lines[..l][k] == lines[k];
  }

  lemma SpanAcross(lines: seq<string>, k: nat, c: nat, l: nat, d: nat)
    requires k < l < |lines| && c <= |lines[k]| && d <= |lines[l]|
    ensures var begin, end := |Concat(lines[..k])| + c, |Concat(lines[..l])| + d;
            && begin <= end <= |Concat(lines)|
            && Concat(lines)[begin..end] == lines[k][c..] + Concat(lines[k + 1..l]) + lines[l][..d]
  {
    TwoLines(lines, k, l);
    Cut(Concat(lines[..k]), lines[k], Concat(lines[k + 1..l]), lines[l], Concat(lines[l + 1..]), c, d);
  }

  /** A span read off the prefix sums is exactly the text between its two positions. */
  lemma SpanIsText(lines: seq<string>, k: nat, c: nat, l: nat, d: nat)
    requires k <= l < |lines| && c <= |lines[k]| && d <= |lines[l]| && (k == l ==> c <= d)
    ensures var begin, end := |Concat(lines[..k])| + c, |Concat(lines[..l])| + d;
            begin <= end <= |Concat(lines)| && Concat(lines)[begin..end] == Between(lines, k, c, l, d)
  {
    if k == l {
      SpanInLine(lines, k, c, d);
    } else {
      SpanAcross(lines, k, c, l, d);
    }
  }

  lemma Cut(before: string, first: string, middle: string, last: string, after: string, c: nat, d: nat)
    requires c <= |first| && d <= |last|
    ensures (before + first + middle + last + after)[|before| + c..|before + first + middle| + d]
            == first[c..] + middle + last[..d]
  {
  }

  /** Bytes a character takes in UTF-8, the unit of `col_offset`. */
  function Utf8Length(ch: char): (n: nat)
    ensures n >= 1
  {
    if ch as int < 0x80 then 1 else if ch as int < 0x800 then 2 else if ch as int < 0x10000 then 3 else 4
  }

  /** The `col_offset` of the character at index `c` of a line. */
  function ByteColumn(line: string): nat {
    if line == "" then 0 else Utf8Length(line[0]) + ByteColumn(line[1..])
  }

  predicate Ascii(s: string) {
    forall i :: 0 <= i < |s| ==> s[i] as int < 0x80
  }

  lemma {:induction false} ByteColumnIsIndex(before: string)
    ensures ByteColumn(before) >= |before|
    ensures ByteColumn(before) == |before| <==> Ascii(before)
  {
    if before != "" {
      ByteColumnIsIndex(before[1..]);
      assert before == [before[0]] + before[1..];
    }
  }

  /**
   `main` adds the byte column of each end of a literal to a character offset.
   An end comes out right exactly when its line is ASCII up to there, and when
   both do, the span is exactly the literal's text.
   */
  lemma ByteSpanExactly(lines: seq<string>, k: nat, c: nat, l: nat, d: nat)
    requires k <= l < |lines| && c <= |lines[k]| && d <= |lines[l]| && (k == l ==> c <= d)
    ensures var begin, end := |Concat(lines[..k])| + ByteColumn(lines[k][..c]),
                              |Concat(lines[..l])| + ByteColumn(lines[l][..d]);
            && (begin == |Concat(lines[..k])| + c <==> Ascii(lines[k][..c]))
            && (end == |Concat(lines[..l])| + d <==> Ascii(lines[l][..d]))
            && (Ascii(lines[k][..c]) && Ascii(lines[l][..d]) ==>
                  begin <= end <= |Concat(lines)| && Concat(lines)[begin..end] == Between(lines, k, c, l, d))
  {
    ByteColumnIsIndex(lines[k][..c]);
    ByteColumnIsIndex(lines[l][..d]);
    SpanIsText(lines, k, c, l, d);
  }

  /** In bytes the digit after one accented letter spans columns 2 to 3 of a text that ends at 2. */
  lemma AccentMovesSpan()
    ensures var line := "\U{e9}1";
            && Concat([line])[1..2] == "1" && |Concat([line])| == 2
            && ByteColumn(line[..1]) == 2 && ByteColumn(line) == 3
  {
    var line := "\U{e9}1";
    assert line[..1] == [line[0]] && line[1..] == "1" && [line][1..] == [] && "1"[1..] == "";
    assert Utf8Length(line[0]) == 2 && Utf8Length('1') == 1;
    assert Concat([line]) == line + "";
  }
}
