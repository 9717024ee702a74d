/**
 Scoring lesson records against a query: `score_lessons` of
 loaders/agent_context.py.
 */
module Lessons {
  import opened Lists
  import opened Ranking
  import opened Sorting
  import opened Text

  const STOPWORDS: set<string> := {
    "is", "it", "in", "on", "at", "to", "of", "or", "and", "but", "no", "not",
    "the", "a", "an", "as", "by", "be", "if", "so", "do", "my", "we", "you",
    "for", "was", "are", "has", "had", "with", "that", "this", "then", "than",
    "from", "into", "when", "what", "why", "how", "does", "did", "will"
  }

  /** The terms that are scored; a query of stopwords alone keeps them. */
  function Tokens(query: string): seq<string> {
    var words := Words(Lower(query));
    var terms := Filter(words, w => |w| > 1 && w !in STOPWORDS);
    if terms == [] then Filter(words, w => |w| > 1) else terms
  }

  function TokenScore(t: string, l: Lesson): real {
    (if Contains(t, Lower(l.id)) then 3.0 else 0.0)
    + (if Contains(t, Lower(l.title)) then 3.0 else 0.0)
    + (if Contains(t, Lower(l.symptom)) then 2.0 else 0.0)
    + (if Contains(t, Lower(l.scope)) then 1.5 else 0.0)
    + (if Contains(t, Lower(l.body)) then 1.0 else 0.0)
  }

  function TokensScore(tokens: seq<string>, l: Lesson): real {
    if tokens == [] then 0.0 else TokenScore(tokens[0], l) + TokensScore(tokens[1..], l)
  }

  function PhraseBonus(phrase: string, l: Lesson): real {
    if phrase != "" && (Contains(phrase, Lower(l.title)) || Contains(phrase, Lower(l.body))) then 5.0 else 0.0
  }

  /** A query, prepared for scoring. */
  datatype Query = Query(tokens: seq<string>, phrase: string, boost: set<string>)

  function Prepare(text: string, boost: set<string>): Query {
    Query(Tokens(text), Strip(Lower(text)), boost)
  }

  function Score(q: Query, l: Lesson): real {
    TokensScore(q.tokens, l) + PhraseBonus(q.phrase, l) + if l.id in q.boost then 4.0 else 0.0
  }

  /** The two inner loops of `score_lessons`. */
  method ScoreOne(q: Query, lesson: Lesson) returns (score: real)
    ensures score == Score(q, lesson)
  {
    score := 0.0;
    var n := 0;
    while n < |q.tokens|
      invariant 0 <= n <= |q.tokens|
      invariant score + TokensScore(q.tokens[n..], lesson) == TokensScore(q.tokens, lesson)
    {
      var t := q.tokens[n];
      if Contains(t, Lower(lesson.id)) {
        score := score + 3.0;
      }
      if Contains(t, Lower(lesson.title)) {
        score := score + 3.0;
      }
      if Contains(t, Lower(lesson.symptom)) {
        score := score + 2.0;
      }
      if Contains(t, Lower(lesson.scope)) {
        score := score + 1.5;
      }
      if Contains(t, Lower(lesson.body)) {
        score := score + 1.0;
      }
      assert q.tokens[n..][1..] == q.tokens[n + 1..];
      n := n + 1;
    }
    if q.phrase != "" && (Contains(q.phrase, Lower(lesson.title)) || Contains(q.phrase, Lower(lesson.body))) {
      score := score + 5.0;
    }
    if lesson.id in q.boost {
      score := score + 4.0;
    }
  }

  /** The outer loop of `score_lessons`. */
  method ScoreAll(lessons: seq<Lesson>, q: Query, ghost score: Lesson -> real) returns (scored: seq<Scored>)
    requires forall l :: score(l) == Score(q, l)
    ensures scored == Hits(lessons, score)
  {
    scored := [];
    var k := 0;
    while k < |lessons|
      invariant 0 <= k <= |lessons|
      invariant scored + Hits(lessons[k..], score) == Hits(lessons, score)
    {
      HitsFrom(lessons, k, score);
      var points := ScoreOne(q, lessons[k]);
      assert points == score(lessons[k]);
      var hit := if points > 0.0 then [Scored(points, lessons[k])] else [];
      Shift(scored, hit, Hits(lessons[k + 1..], score));
      scored := scored + hit;
      k := k + 1;
    }
  }

  /** `score_lessons`; a negative limit counts from the end. */
  method ScoreLessons(lessons: seq<Lesson>, text: string, limit: int, boost: set<string>)
    returns (ranked: seq<Lesson>)
    ensures var q := Prepare(text, boost);
            ranked == if q.tokens == [] then [] else Top(lessons, l => Score(q, l), limit)
    ensures (forall w :: w in Words(Lower(text)) ==> |w| <= 1) ==> ranked == []
    ensures (exists w :: w in Words(Lower(text)) && |w| > 1) ==>
              IsTopSlice(ranked, limit, lessons, l => Score(Prepare(text, boost), l))
  {
    var q := Prepare(text, boost);
    SomeToken(text);
    if q.tokens == [] {
      return [];
    }
    var scored := ScoreAll(lessons, q, l => Score(q, l));
    ranked := LessonsOf(Take(Sort(scored, RanksBefore), limit));
    TopIsTopSlice(lessons, l => Score(q, l), limit);
  }

  /** There is a term exactly when some word is longer than one letter. */
  lemma SomeToken(text: string)
    ensures Tokens(text) != [] <==> exists w :: w in Words(Lower(text)) && |w| > 1
  {
    var words := Words(Lower(text));
    forall t ensures t in Tokens(text) ==> t in words && |t| > 1 {
      TokensExactly(text, t);
    }
    assert Tokens(text) != [] ==> Tokens(text)[0] in Tokens(text);
    if w :| w in words && |w| > 1 {
      FilterMembers(words, u => |u| > 1, w);
    }
  }

  // ----- what is scored, and what scores

  /** A term is a word of the query longer than one letter: not a stopword, unless there is nothing else. */
  lemma TokensExactly(query: string, t: string)
    ensures var words := Words(Lower(query));
            t in Tokens(query) <==>
              t in words && |t| > 1
              && (t in STOPWORDS ==> forall u :: u in words && |u| > 1 ==> u in STOPWORDS)
  {
    var words := Words(Lower(query));
    var terms := Filter(words, w => |w| > 1 && w !in STOPWORDS);
    forall u ensures u in terms <==> u in words && |u| > 1 && u !in STOPWORDS {
      FilterMembers(words, w => |w| > 1 && w !in STOPWORDS, u);
    }
    FilterMembers(words, w => |w| > 1, t);
    if terms != [] {
      assert terms[0] in terms;
    }
  }

  /** The term occurs in some field. */
  predicate Occurs(t: string, l: Lesson) {
    Contains(t, Lower(l.id)) || Contains(t, Lower(l.title)) || Contains(t, Lower(l.symptom))
    || Contains(t, Lower(l.scope)) || Contains(t, Lower(l.body))
  }

  lemma {:induction false} TokensScoreExactly(tokens: seq<string>, l: Lesson)
    ensures TokensScore(tokens, l) >= 0.0
    ensures TokensScore(tokens, l) > 0.0 <==> exists i :: 0 <= i < |tokens| && Occurs(tokens[i], l)
  {
    if tokens != [] {
      TokensScoreExactly(tokens[1..], l);
      if i :| 0 <= i < |tokens[1..]| && Occurs(tokens[1..][i], l) {
        assert Occurs(tokens[i + 1], l);
      }
      if i :| 0 <= i < |tokens| && Occurs(tokens[i], l) {
        assert i > 0 ==> Occurs(tokens[1..][i - 1], l);
      }
    }
  }

  /** A lesson is a hit exactly when a term, the whole phrase or the boost finds it. */
  lemma PositiveExactly(q: Query, l: Lesson)
    ensures Score(q, l) > 0.0 <==>
              || (exists i :: 0 <= i < |q.tokens| && Occurs(q.tokens[i], l))
              || (q.phrase != "" && (Contains(q.phrase, Lower(l.title)) || Contains(q.phrase, Lower(l.body))))
              || l.id in q.boost
  {
    TokensScoreExactly(q.tokens, l);
  }

  /** How many of the terms stand in the text. */
  function Found(tokens: seq<string>, text: string): nat {
    |Filter(tokens, t => Contains(t, text))|
  }

  lemma {:induction false} TokensScoreByField(tokens: seq<string>, l: Lesson)
    ensures TokensScore(tokens, l)
            == 3.0 * Found(tokens, Lower(l.id)) as real + 3.0 * Found(tokens, Lower(l.title)) as real
               + 2.0 * Found(tokens, Lower(l.symptom)) as real + 1.5 * Found(tokens, Lower(l.scope)) as real
               + Found(tokens, Lower(l.body)) as real
  {
    if tokens != [] {
      TokensScoreByField(tokens[1..], l);
      FoundFirst(tokens, Lower(l.id));
      FoundFirst(tokens, Lower(l.title));
      FoundFirst(tokens, Lower(l.symptom));
      FoundFirst(tokens, Lower(l.scope));
      FoundFirst(tokens, Lower(l.body));
    }
  }

  lemma FoundFirst(tokens: seq<string>, text: string)
    requires tokens != []
    ensures Found(tokens, text) == Found(tokens[1..], text) + if Contains(tokens[0], text) then 1 else 0
  {
  }

  /**
   The score, field by field: three points for each term in the id and in the
   title, two in the symptom, one and a half in the scope, one in the body;
   five for the whole phrase in title or body, four for a boosted lesson.
   */
  lemma ScoreByField(text: string, boost: set<string>, l: Lesson)
    ensures var tokens, phrase := Tokens(text), Strip(Lower(text));
            Score(Prepare(text, boost), l)
            == 3.0 * Found(tokens, Lower(l.id)) as real + 3.0 * Found(tokens, Lower(l.title)) as real
               + 2.0 * Found(tokens, Lower(l.symptom)) as real + 1.5 * Found(tokens, Lower(l.scope)) as real
               + Found(tokens, Lower(l.body)) as real
               + (if phrase != "" && (Contains(phrase, Lower(l.title)) || Contains(phrase, Lower(l.body))) then 5.0
                  else 0.0)
               + (if l.id in boost then 4.0 else 0.0)
  {
    TokensScoreByField(Tokens(text), l);
  }
}
