/**
 Deterministic top-k ranking of lesson records by any score: the sort and slice
 at the end of `score_lessons` (loaders/agent_context.py).
 */
module Ranking {
  import opened Lists
  import opened Sorting
  import opened Text

  /** A record; an absent field reads as the empty string. */
  datatype Lesson = Lesson(id: string, title: string, symptom: string, scope: string, body: string)

  datatype Scored = Scored(score: real, lesson: Lesson)

  function Entry(l: Lesson, score: Lesson -> real): Scored {
    Scored(score(l), l)
  }

  function Hit(l: Lesson, score: Lesson -> real): seq<Scored> {
    if score(l) > 0.0 then [Entry(l, score)] else []
  }

  /** The positively scored lessons, in input order. */
  function Hits(lessons: seq<Lesson>, score: Lesson -> real): seq<Scored> {
    if lessons == [] then [] else Hit(lessons[0], score) + Hits(lessons[1..], score)
  }

  lemma HitsFrom(lessons: seq<Lesson>, k: nat, score: Lesson -> real)
    requires k < |lessons|
    ensures Hits(lessons[k..], score)
            == (if score(lessons[k]) > 0.0 then [Scored(score(lessons[k]), lessons[k])] else [])
               + Hits(lessons[k + 1..], score)
  {
    assert lessons[k..][1..] == lessons[k + 1..];
  }

  /** The sort key `(-score, id)`. */
  predicate RanksBefore(a: Scored, b: Scored) {
    a.score > b.score || (a.score == b.score && TextLeq(a.lesson.id, b.lesson.id))
  }

  function Ranked(lessons: seq<Lesson>, score: Lesson -> real): seq<Scored> {
    Sort(Hits(lessons, score), RanksBefore)
  }

  /** `s[:limit]`: a negative limit counts from the end. */
  function Take<T>(s: seq<T>, limit: int): seq<T> {
    if limit >= |s| then s
    else if limit >= 0 then s[..limit]
    else if |s| + limit >= 0 then s[..|s| + limit]
    else []
  }

  function LessonsOf(scored: seq<Scored>): (r: seq<Lesson>)
    ensures |r| == |scored|
    ensures forall i :: 0 <= i < |r| ==> r[i] == scored[i].lesson
  {
    if scored == [] then [] else [scored[0].lesson] + LessonsOf(scored[1..])
  }

  function Top(lessons: seq<Lesson>, score: Lesson -> real, limit: int): seq<Lesson> {
    LessonsOf(Take(Ranked(lessons, score), limit))
  }

  lemma RanksBeforeTotal()
    ensures TotalPreorder(RanksBefore)
  {
    forall a, b ensures RanksBefore(a, b) || RanksBefore(b, a) {
      TextLeqTotal(a.lesson.id, b.lesson.id);
    }
    forall a, b, c | RanksBefore(a, b) && RanksBefore(b, c) ensures RanksBefore(a, c) {
      if a.score == b.score == c.score {
        TextLeqTransitive(a.lesson.id, b.lesson.id, c.lesson.id);
      }
    }
  }

  // ----- what is returned

  /**
   `top` is a best `limit` of the positively scored lessons: it is as long as
   it can be, higher scores come first and ties in the order of their ids, and
   nothing left out has a higher score, or the same score and an earlier id,
   than anything in it.
   */
  ghost predicate IsTop(top: seq<Lesson>, limit: nat, lessons: seq<Lesson>, score: Lesson -> real) {
    var hits := |Filter(lessons, (l: Lesson) => score(l) > 0.0)|;
    && |top| == (if limit < hits then limit else hits)
    && multiset(top) <= multiset(lessons)
    && (forall l :: l in top ==> score(l) > 0.0)
    && BestFirst(top, score) && NothingBetterOut(top, lessons, score)
  }

  ghost predicate BestFirst(top: seq<Lesson>, score: Lesson -> real) {
    forall i, j :: 0 <= i < j < |top| ==>
      || score(top[i]) > score(top[j])
      || (score(top[i]) == score(top[j]) && Alphabetical(top[i].id, top[j].id))
  }

  ghost predicate NothingBetterOut(top: seq<Lesson>, lessons: seq<Lesson>, score: Lesson -> real) {
    forall h, l :: h in lessons && score(h) > 0.0 && h !in top && l in top ==>
      score(h) < score(l) || (score(h) == score(l) && Alphabetical(l.id, h.id))
  }

  /** What the sort key compares. */
  lemma RanksBeforeExactly(a: Lesson, b: Lesson, score: Lesson -> real)
    ensures RanksBefore(Entry(a, score), Entry(b, score))
            <==> score(a) > score(b) || (score(a) == score(b) && Alphabetical(a.id, b.id))
  {
    TextLeqExactly(a.id, b.id);
  }

  lemma {:induction false} HitsCount(lessons: seq<Lesson>, score: Lesson -> real)
    ensures |Hits(lessons, score)| == |Filter(lessons, (l: Lesson) => score(l) > 0.0)|
  {
    if lessons != [] {
      HitsCount(lessons[1..], score);
    }
  }

  lemma {:induction false} HitsFacts(lessons: seq<Lesson>, score: Lesson -> real)
    ensures forall h :: h in Hits(lessons, score)
              <==> h.score > 0.0 && h.lesson in lessons && h == Entry(h.lesson, score)
    ensures multiset(LessonsOf(Hits(lessons, score))) <= multiset(lessons)
  {
    if lessons != [] {
      HitsFacts(lessons[1..], score);
      assert lessons == [lessons[0]] + lessons[1..];
      var rest := Hits(lessons[1..], score);
      assert LessonsOf(Hits(lessons, score))
          == if score(lessons[0]) > 0.0 then [lessons[0]] + LessonsOf(rest) else LessonsOf(rest);
    }
  }

  lemma LessonsOfConcat(s: seq<Scored>, t: seq<Scored>)
    ensures LessonsOf(s + t) == LessonsOf(s) + LessonsOf(t)
  {
  }

  lemma {:induction false} LessonsOfFlat(s: seq<Scored>)
    ensures LessonsOf(s) == FlatMap(s, (h: Scored) => [h.lesson])
  {
    if s != [] {
      LessonsOfFlat(s[1..]);
    }
  }

  lemma LessonsOfRearranged(s: seq<Scored>, t: seq<Scored>)
    requires multiset(s) == multiset(t)
    ensures multiset(LessonsOf(s)) == multiset(LessonsOf(t))
  {
    LessonsOfFlat(s);
    LessonsOfFlat(t);
    FlatMapRearranged(s, t, (h: Scored) => [h.lesson]);
  }

  lemma TakePrefix<T>(s: seq<T>, limit: nat)
    ensures Take(s, limit) <= s
    ensures |Take(s, limit)| == if limit < |s| then limit else |s|
  {
  }

  /** A prefix of an ordered arrangement of the hits leaves nothing better out. */
  lemma NothingBetterLeftOut(all: seq<Scored>, top: seq<Scored>, h: Scored, i: nat)
    requires Ordered(all, RanksBefore) && top <= all && h in all && i < |top| && h.lesson !in LessonsOf(top)
    ensures RanksBefore(top[i], h)
  {
    forall k | 0 <= k < |top| ensures all[k] != h {
      assert LessonsOf(top)[k] == all[k].lesson;
    }
    var j :| 0 <= j < |all| && all[j] == h;
    assert RanksBefore(all[i], all[j]);
  }

  lemma RankedWithin(lessons: seq<Lesson>, score: Lesson -> real)
    ensures multiset(LessonsOf(Ranked(lessons, score))) <= multiset(lessons)
  {
    SortKeeps(Hits(lessons, score), RanksBefore);
    HitsFacts(lessons, score);
    LessonsOfRearranged(Ranked(lessons, score), Hits(lessons, score));
  }

  lemma RankedFacts(lessons: seq<Lesson>, score: Lesson -> real)
    ensures var all := Ranked(lessons, score);
            && Ordered(all, RanksBefore)
            && |all| == |Hits(lessons, score)|
            && (forall h :: h in all <==> h in Hits(lessons, score))
            && (forall i :: 0 <= i < |all| ==> all[i].score > 0.0 && Entry(all[i].lesson, score) == all[i])
  {
    var hits := Hits(lessons, score);
    var all := Ranked(lessons, score);
    RanksBeforeTotal();
    SortKeeps(hits, RanksBefore);
    SortOrdered(hits, RanksBefore);
    SortMembers(hits, RanksBefore);
    HitsFacts(lessons, score);
    forall i | 0 <= i < |all| ensures all[i].score > 0.0 && Entry(all[i].lesson, score) == all[i] {
      assert all[i] in hits;
    }
  }

  lemma PrefixWithin(best: seq<Scored>, all: seq<Scored>)
    requires best <= all
    ensures multiset(LessonsOf(best)) <= multiset(LessonsOf(all))
  {
    LessonsOfConcat(best, all[|best|..]);
    assert all == best + all[|best|..];
  }

  lemma TopEntries(lessons: seq<Lesson>, score: Lesson -> real, limit: nat)
    ensures var top, best := Top(lessons, score, limit), Take(Ranked(lessons, score), limit);
            forall i :: 0 <= i < |top| ==>
              best[i] == Ranked(lessons, score)[i] == Entry(top[i], score) && score(top[i]) > 0.0
  {
    RankedFacts(lessons, score);
    TakePrefix(Ranked(lessons, score), limit);
  }

  lemma TopExhaustive(lessons: seq<Lesson>, score: Lesson -> real, limit: nat, h: Scored, i: nat)
    requires h in Hits(lessons, score) && h.lesson !in Top(lessons, score, limit) && i < |Top(lessons, score, limit)|
    ensures RanksBefore(Entry(Top(lessons, score, limit)[i], score), h)
  {
    var all := Ranked(lessons, score);
    RankedFacts(lessons, score);
    TakePrefix(all, limit);
    TopEntries(lessons, score, limit);
    NothingBetterLeftOut(all, Take(all, limit), h, i);
  }

  lemma TopOrdered(lessons: seq<Lesson>, score: Lesson -> real, limit: nat, i: nat, j: nat)
    requires i < j < |Top(lessons, score, limit)|
    ensures var top := Top(lessons, score, limit);
            || score(top[i]) > score(top[j])
            || (score(top[i]) == score(top[j]) && Alphabetical(top[i].id, top[j].id))
  {
    var all, top := Ranked(lessons, score), Top(lessons, score, limit);
    RankedFacts(lessons, score);
    TopEntries(lessons, score, limit);
    assert RanksBefore(all[i], all[j]);
    RanksBeforeExactly(top[i], top[j], score);
  }

  lemma TopBeats(lessons: seq<Lesson>, score: Lesson -> real, limit: nat, h: Lesson, l: Lesson)
    requires var top := Top(lessons, score, limit); h in lessons && score(h) > 0.0 && h !in top && l in top
    ensures score(h) < score(l) || (score(h) == score(l) && Alphabetical(l.id, h.id))
  {
    var top := Top(lessons, score, limit);
    var i :| 0 <= i < |top| && top[i] == l;
    HitsFacts(lessons, score);
    TopExhaustive(lessons, score, limit, Entry(h, score), i);
    RanksBeforeExactly(l, h, score);
  }

  lemma TopSize(lessons: seq<Lesson>, score: Lesson -> real, limit: nat)
    ensures var top, hits := Top(lessons, score, limit), |Filter(lessons, (l: Lesson) => score(l) > 0.0)|;
            && |top| == (if limit < hits then limit else hits)
            && multiset(top) <= multiset(lessons)
            && forall l :: l in top ==> score(l) > 0.0
  {
    var all, top := Ranked(lessons, score), Top(lessons, score, limit);
    HitsCount(lessons, score);
    RankedFacts(lessons, score);
    TakePrefix(all, limit);
    TopEntries(lessons, score, limit);
    RankedWithin(lessons, score);
    PrefixWithin(Take(all, limit), all);
  }

  lemma TopIsTop(lessons: seq<Lesson>, score: Lesson -> real, limit: nat)
    ensures IsTop(Top(lessons, score, limit), limit, lessons, score)
  {
    TopSize(lessons, score, limit);
    TopBestFirst(lessons, score, limit);
    TopNothingBetterOut(lessons, score, limit);
  }

  lemma TopBestFirst(lessons: seq<Lesson>, score: Lesson -> real, limit: nat)
    ensures BestFirst(Top(lessons, score, limit), score)
  {
    var top := Top(lessons, score, limit);
    forall i, j | 0 <= i < j < |top|
      ensures score(top[i]) > score(top[j])
              || (score(top[i]) == score(top[j]) && Alphabetical(top[i].id, top[j].id))
    {
      TopOrdered(lessons, score, limit, i, j);
    }
  }

  lemma TopNothingBetterOut(lessons: seq<Lesson>, score: Lesson -> real, limit: nat)
    ensures NothingBetterOut(Top(lessons, score, limit), lessons, score)
  {
    var top := Top(lessons, score, limit);
    forall h, l | h in lessons && score(h) > 0.0 && h !in top && l in top
      ensures score(h) < score(l) || (score(h) == score(l) && Alphabetical(l.id, h.id))
    {
      TopBeats(lessons, score, limit, h, l);
    }
  }

  /** The same for any limit: a negative one leaves that many of the hits out. */
  ghost predicate IsTopSlice(top: seq<Lesson>, limit: int, lessons: seq<Lesson>, score: Lesson -> real) {
    var hits := |Filter(lessons, (l: Lesson) => score(l) > 0.0)|;
    IsTop(top, if limit >= 0 then limit else if hits + limit > 0 then hits + limit else 0, lessons, score)
  }

  lemma TopIsTopSlice(lessons: seq<Lesson>, score: Lesson -> real, limit: int)
    ensures IsTopSlice(Top(lessons, score, limit), limit, lessons, score)
  {
    var hits := |Filter(lessons, (l: Lesson) => score(l) > 0.0)|;
    var n := if limit >= 0 then limit else if hits + limit > 0 then hits + limit else 0;
    HitsCount(lessons, score);
    RankedFacts(lessons, score);
    assert Take(Ranked(lessons, score), limit) == Take(Ranked(lessons, score), n);
    TopIsTop(lessons, score, n);
  }

  ghost predicate AllDifferent(lessons: seq<Lesson>) {
    forall j, k :: 0 <= j < k < |lessons| ==> lessons[j] != lessons[k]
  }

  lemma TopMember(top: seq<Lesson>, limit: nat, lessons: seq<Lesson>, score: Lesson -> real, i: nat)
    requires IsTop(top, limit, lessons, score) && i < |top|
    ensures top[i] in lessons && score(top[i]) > 0.0
  {
    assert top[i] in multiset(top);
    assert top[i] in multiset(lessons);
  }

  /** Where two best lists first differ, the second one's lesson does not rank after the first one's. */
  lemma FirstDifference(a: seq<Lesson>, b: seq<Lesson>, limit: nat, lessons: seq<Lesson>, score: Lesson -> real, i: nat)
    requires IsTop(a, limit, lessons, score) && IsTop(b, limit, lessons, score)
    requires AllDifferent(a) && i < |a| && (forall j :: 0 <= j < i ==> a[j] == b[j]) && a[i] != b[i]
    ensures RanksBefore(Entry(b[i], score), Entry(a[i], score))
  {
    TopMember(a, limit, lessons, score, i);
    RanksBeforeExactly(b[i], a[i], score);
    if a[i] in b {
      var j :| 0 <= j < |b| && b[j] == a[i];
      assert j > i;
    } else {
      assert b[i] in b;
    }
  }

  lemma NoRepeats(top: seq<Lesson>, lessons: seq<Lesson>)
    requires multiset(top) <= multiset(lessons) && AllDifferent(lessons)
    ensures AllDifferent(top)
  {
    forall j, k | 0 <= j < k < |top| ensures top[j] != top[k] {
      if top[j] == top[k] {
        var x := top[j];
        assert top == top[..j] + ([x] + top[j + 1..k] + ([x] + top[k + 1..]));
        assert multiset(top)[x] >= 2;
        OnceOnly(lessons, x);
      }
    }
  }

  lemma {:induction false} OnceOnly(lessons: seq<Lesson>, x: Lesson)
    requires AllDifferent(lessons)
    ensures multiset(lessons)[x] <= 1
  {
    if lessons != [] {
      HeadOut(lessons);
      OnceOnly(lessons[1..], x);
      if lessons[0] == x {
        assert x !in lessons[1..];
      }
    }
  }

  /** For a corpus of distinct lessons with distinct ids there is only one such list. */
  lemma {:induction false} TopUnique(a: seq<Lesson>, b: seq<Lesson>, limit: nat, lessons: seq<Lesson>,
                                     score: Lesson -> real)
    requires DistinctIds(lessons) && AllDifferent(lessons)
    requires IsTop(a, limit, lessons, score) && IsTop(b, limit, lessons, score)
    ensures a == b
  {
    NoRepeats(a, lessons);
    NoRepeats(b, lessons);
    var i := 0;
    while i < |a|
      invariant 0 <= i <= |a| == |b|
      invariant forall j :: 0 <= j < i ==> a[j] == b[j]
    {
      if a[i] != b[i] {
        FirstDifference(a, b, limit, lessons, score, i);
        FirstDifference(b, a, limit, lessons, score, i);
        TextLeqTotal(a[i].id, b[i].id);
        TopMember(a, limit, lessons, score, i);
        TopMember(b, limit, lessons, score, i);
        assert false;
      }
      i := i + 1;
    }
  }

  // ----- it does not depend on how the corpus is ordered

  ghost predicate DistinctIds(lessons: seq<Lesson>) {
    forall a, b :: a in lessons && b in lessons && a.id == b.id ==> a == b
  }

  lemma {:induction false} HitsFlat(lessons: seq<Lesson>, score: Lesson -> real)
    ensures Hits(lessons, score) == FlatMap(lessons, l => Hit(l, score))
  {
    if lessons != [] {
      HitsFlat(lessons[1..], score);
    }
  }

  /** Different lessons that are hits differ in id or in score. */
  ghost predicate NoTiedHits(lessons: seq<Lesson>, score: Lesson -> real) {
    forall a, b :: a in lessons && b in lessons && a.id == b.id && score(a) == score(b) > 0.0 ==> a == b
  }

  lemma UntiedStable(a: seq<Lesson>, b: seq<Lesson>, score: Lesson -> real)
    requires multiset(a) == multiset(b) && NoTiedHits(a, score)
    ensures Ranked(a, score) == Ranked(b, score)
  {
    RanksBeforeTotal();
    HitsFlat(a, score);
    HitsFlat(b, score);
    FlatMapRearranged(a, b, l => Hit(l, score));
    HitsFacts(a, score);
    forall x, y | x in Hits(a, score) && y in Hits(a, score) && RanksBefore(x, y) && RanksBefore(y, x) ensures x == y {
      TextLeqTotal(x.lesson.id, y.lesson.id);
    }
    SortOfRearrangement(Hits(a, score), Hits(b, score), RanksBefore);
  }

  /** With distinct ids every arrangement of the corpus gives the same list. */
  lemma RankedStable(a: seq<Lesson>, b: seq<Lesson>, score: Lesson -> real)
    requires multiset(a) == multiset(b) && DistinctIds(a)
    ensures Ranked(a, score) == Ranked(b, score)
  {
    UntiedStable(a, b, score);
  }

  /** Every arrangement of the corpus gives the same list. */
  ghost predicate Stable(lessons: seq<Lesson>, score: Lesson -> real) {
    forall other :: multiset(other) == multiset(lessons) ==> Ranked(other, score) == Ranked(lessons, score)
  }

  lemma HitsOfTwo(a: Lesson, b: Lesson, rest: seq<Lesson>, score: Lesson -> real)
    requires score(a) > 0.0 && score(b) > 0.0
    ensures Ranked([a, b] + rest, score)
            == Insert(Entry(a, score), Insert(Entry(b, score), Ranked(rest, score), RanksBefore), RanksBefore)
  {
    var e, f, hits := Entry(a, score), Entry(b, score), Hits(rest, score);
    assert ([a, b] + rest)[1..] == [b] + rest && ([b] + rest)[1..] == rest;
    assert Hits([b] + rest, score) == [f] + hits;
    assert Hits([a, b] + rest, score) == [e] + ([f] + hits);
    SortFirst(f, hits);
    SortFirst(e, [f] + hits);
  }

  lemma SortFirst(x: Scored, s: seq<Scored>)
    ensures Sort([x] + s, RanksBefore) == Insert(x, Sort(s, RanksBefore), RanksBefore)
  {
    assert ([x] + s)[1..] == s;
  }

  /** Two lessons that tie, in front of the rest of the corpus. */
  lemma TwoInFront(lessons: seq<Lesson>, a: Lesson, b: Lesson) returns (rest: seq<Lesson>)
    requires a in lessons && b in lessons && a != b
    ensures multiset([a, b] + rest) == multiset(lessons) == multiset([b, a] + rest)
  {
    var i := Extract(lessons, a);
    var others := lessons[..i] + lessons[i + 1..];
    assert b in multiset(others) by { assert multiset(others)[b] == multiset(lessons)[b]; }
    var j := Extract(others, b);
    rest := others[..j] + others[j + 1..];
    PairOut(a, b, rest, lessons);
  }

  lemma PairOut(a: Lesson, b: Lesson, rest: seq<Lesson>, lessons: seq<Lesson>)
    requires multiset(rest) == multiset(lessons) - multiset{a} - multiset{b}
    requires a in lessons && b in lessons && a != b
    ensures multiset([a, b] + rest) == multiset(lessons) == multiset([b, a] + rest)
  {
    assert multiset([a, b] + rest) == multiset([a, b]) + multiset(rest);
    assert multiset([b, a] + rest) == multiset([b, a]) + multiset(rest);
  }

  lemma TiedDiffer(a: Lesson, b: Lesson, rest: seq<Lesson>, score: Lesson -> real)
    requires a.id == b.id && score(a) == score(b) > 0.0 && a != b
    ensures Ranked([a, b] + rest, score) != Ranked([b, a] + rest, score)
  {
    HitsOfTwo(a, b, rest, score);
    HitsOfTwo(b, a, rest, score);
    RanksBeforeTotal();
    TextLeqTotal(a.id, b.id);
    TiesKeepOrder(Entry(a, score), Entry(b, score), Ranked(rest, score), RanksBefore);
  }

  lemma TiedUnstable(lessons: seq<Lesson>, score: Lesson -> real, a: Lesson, b: Lesson)
    requires a in lessons && b in lessons && a.id == b.id && score(a) == score(b) > 0.0 && a != b
    ensures !Stable(lessons, score)
  {
    var rest := TwoInFront(lessons, a, b);
    TiedDiffer(a, b, rest, score);
    if Ranked([a, b] + rest, score) == Ranked(lessons, score) {
      assert Ranked([b, a] + rest, score) != Ranked(lessons, score);
    }
  }

  /** The ranking is independent of the arrangement of the corpus exactly when no two different hits tie. */
  lemma StableExactly(lessons: seq<Lesson>, score: Lesson -> real)
    ensures Stable(lessons, score) <==> NoTiedHits(lessons, score)
  {
    if NoTiedHits(lessons, score) {
      forall other | multiset(other) == multiset(lessons) ensures Ranked(other, score) == Ranked(lessons, score) {
        UntiedStable(lessons, other, score);
      }
    } else {
      var a, b :| a in lessons && b in lessons && a.id == b.id && score(a) == score(b) > 0.0 && a != b;
      TiedUnstable(lessons, score, a, b);
    }
  }

  /** For instance, two lessons with one id and one score keep their input order. */
  lemma SharedIdKeepsInputOrder(a: Lesson, b: Lesson, score: Lesson -> real)
    requires a.id == b.id && score(a) == score(b) > 0.0
    ensures Ranked([a, b], score) == [Entry(a, score), Entry(b, score)]
  {
    TextLeqTotal(a.id, b.id);
    var e, f := Entry(a, score), Entry(b, score);
    assert [a, b][1..] == [b] && [b][1..] == [];
    assert Hits([b], score) == [f];
    assert Hits([a, b], score) == [e, f];
    assert [e, f][1..] == [f] && Sort([f], RanksBefore) == [f];
  }

  /** Asking for one more only ever appends, except from -1 to 0, where the sign changes meaning. */
  lemma OneMoreExtends(lessons: seq<Lesson>, score: Lesson -> real, limit: int)
    ensures Take(Ranked(lessons, score), limit) <= Take(Ranked(lessons, score), limit + 1)
            <==> limit != -1 || |Ranked(lessons, score)| <= 1
  {
  }
}
