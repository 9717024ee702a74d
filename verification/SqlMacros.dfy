/**
 Neutralising Grafana macros and variables before SQL validation:
 `sql_for_validation` of grafana/compiler.py, for ASCII text.
 */
module SqlMacros {
  import opened Lists
  import opened Text

  datatype Result = Ok(sql: string) | UnsupportedMacro

  /** `\w` */
  predicate IsWord(c: char) {
    'a' <= c <= 'z' || 'A' <= c <= 'Z' || '0' <= c <= '9' || c == '_'
  }

  /** Letters, digits and the underscore, by their codes. */
  lemma IsWordExactly(c: char)
    ensures var n := c as int; IsWord(c) <==> 48 <= n <= 57 || 65 <= n <= 90 || n == 95 || 97 <= n <= 122
  {
  }

  /** The length of the longest `\w*` at the start. */
  function WordLength(s: string): (n: nat)
    ensures n <= |s|
    ensures forall i :: 0 <= i < n ==> IsWord(s[i])
    ensures n < |s| ==> !IsWord(s[n])
  {
    if s == "" || !IsWord(s[0]) then 0 else 1 + WordLength(s[1..])
  }

  function SpaceLength(s: string): (n: nat)
    ensures n <= |s|
  {
    if s == "" || !IsSpace(s[0]) then 0 else 1 + SpaceLength(s[1..])
  }

  // ----- the function-form macros

  datatype Macro = TimeFilter | DateFilter | TimeInterval

  const MACROS: seq<Macro> := [TimeFilter, DateFilter, TimeInterval]

  function Opening(m: Macro): string {
    match m
    case TimeFilter => "$__timeFilter("
    case DateFilter => "$__dateFilter("
    case TimeInterval => "$__timeInterval("
  }

  function Replacement(m: Macro, column: string): string {
    match m
    case TimeFilter => column + " >= now() - INTERVAL 30 DAY"
    case DateFilter => "toDate(" + column + ") >= today() - 30"
    case TimeInterval => "toIntervalMinute(5)"
  }

  datatype Match = NoMatch | Match(column: string, length: nat)

  /** The pattern `\s*(\w+)\s*\)` at the start of `s`. */
  function MatchArgument(s: string): (r: Match)
    ensures r.Match? ==> 0 < r.length <= |s|
  {
    var a := SpaceLength(s);
    var word := s[a..];
    var b := WordLength(word);
    var rest := word[b..];
    var c := SpaceLength(rest);
    if b > 0 && c < |rest| && rest[c] == ')' then Match(word[..b], a + b + c + 1) else NoMatch
  }

  function MatchCall(s: string, open: string): (r: Match)
    ensures r.Match? ==> |open| < r.length <= |s| && open <= s
  {
    if !(open <= s) then NoMatch
    else
      match MatchArgument(s[|open|..])
      case Match(column, n) => Match(column, |open| + n)
      case NoMatch => NoMatch
  }

  function MatchMacro(s: string, m: Macro): (r: Match)
    ensures r.Match? ==> 0 < r.length <= |s| && Opening(m) <= s
  {
    MatchCall(s, Opening(m))
  }

  /** `pattern.sub(repl, s)`. */
  function Expand(s: string, m: Macro): string
    decreases |s|
  {
    if s == "" then ""
    else
      match MatchMacro(s, m)
      case Match(column, n) => Replacement(m, column) + Expand(s[n..], m)
      case NoMatch => [s[0]] + Expand(s[1..], m)
  }

  function ExpandAll(s: string, macros: seq<Macro>): string
    decreases |macros|
  {
    if macros == [] then s else ExpandAll(Expand(s, macros[0]), macros[1..])
  }

  // ----- what is left over

  /** `$__\w+` at the start of `s`, not an interval variant. */
  predicate UnsupportedAt(s: string) {
    "$__" <= s && WordLength(s[3..]) > 0 && !("$__interval" <= s)
  }

  /** The scan of `re.findall`, which resumes after each match. */
  predicate FindsUnsupported(s: string)
    decreases |s|
  {
    s != "" &&
    if "$__" <= s && WordLength(s[3..]) > 0 then
      UnsupportedAt(s) || FindsUnsupported(s[3 + WordLength(s[3..])..])
    else FindsUnsupported(s[1..])
  }

  const PLACEHOLDER := "'__var__'"

  /** `re.sub(r"\$\w+", "'__var__'", s)`. */
  function Neutralize(s: string): string
    decreases |s|
  {
    if s == "" then ""
    else if s[0] == '$' && WordLength(s[1..]) > 0 then PLACEHOLDER + Neutralize(s[1 + WordLength(s[1..])..])
    else [s[0]] + Neutralize(s[1..])
  }

  function Validate(sql: string): Result {
    var cleaned := ExpandAll(sql, MACROS);
    if FindsUnsupported(cleaned) then UnsupportedMacro else Ok(Neutralize(cleaned))
  }

  /** `sql_for_validation`; `UnsupportedMacro` is its `ValueError`. */
  method SqlForValidation(sql: string) returns (r: Result)
    ensures r == Validate(sql)
    ensures r.Ok? ==> !HasVariable(r.sql) && Validate(r.sql) == r
    ensures r == Ok(sql) <==> !HasVariable(sql)
  {
    var cleaned := sql;
    var k := 0;
    while k < |MACROS|
      invariant 0 <= k <= |MACROS|
      invariant ExpandAll(cleaned, MACROS[k..]) == ExpandAll(sql, MACROS)
    {
      assert MACROS[k..][0] == MACROS[k] && MACROS[k..][1..] == MACROS[k + 1..];
      cleaned := Expand(cleaned, MACROS[k]);
      k := k + 1;
    }
    ValidateExactly(sql);
    if FindsUnsupported(cleaned) {
      return UnsupportedMacro;
    }
    r := Ok(Neutralize(cleaned));
    ValidateExactly(r.sql);
  }

  // ----- the properties

  predicate VariableAt(s: string, i: nat) {
    i + 1 < |s| && s[i] == '$' && IsWord(s[i + 1])
  }

  /** A `$` is directly followed by a word character somewhere. */
  ghost predicate HasVariable(s: string) {
    exists i: nat :: VariableAt(s, i)
  }

  lemma HasVariableTail(s: string, c: char)
    ensures HasVariable([c] + s) <==> HasVariable(s) || (c == '$' && s != "" && IsWord(s[0]))
  {
    var t := [c] + s;
    if i: nat :| VariableAt(s, i) {
      assert VariableAt(t, i + 1);
    }
    if i: nat :| VariableAt(t, i) {
      if i > 0 {
        assert VariableAt(s, i - 1);
      }
    }
    if c == '$' && s != "" && IsWord(s[0]) {
      assert VariableAt(t, 0);
    }
  }

  lemma {:induction false} QuietPrefix(p: string, s: string)
    requires forall i :: 0 <= i < |p| ==> p[i] != '$'
    ensures HasVariable(p + s) <==> HasVariable(s)
  {
    if p == "" {
      assert p + s == s;
    } else {
      assert p + s == [p[0]] + (p[1..] + s);
      HasVariableTail(p[1..] + s, p[0]);
      QuietPrefix(p[1..], s);
    }
  }

  /** Neutralised text has no variable left, and a word starts it only if one started the input. */
  lemma {:induction false} NeutralizeClears(s: string)
    ensures !HasVariable(Neutralize(s))
    ensures Neutralize(s) != "" && IsWord(Neutralize(s)[0]) ==> s != "" && IsWord(s[0])
    decreases |s|
  {
    if s == "" {
    } else if s[0] == '$' && WordLength(s[1..]) > 0 {
      var rest := s[1 + WordLength(s[1..])..];
      NeutralizeClears(rest);
      QuietPrefix(PLACEHOLDER, Neutralize(rest));
    } else {
      NeutralizeClears(s[1..]);
      HasVariableTail(Neutralize(s[1..]), s[0]);
    }
  }

  lemma {:induction false} NeutralizeIdle(s: string)
    ensures Neutralize(s) == s <==> !HasVariable(s)
    decreases |s|
  {
    if s == "" {
    } else if s[0] == '$' && WordLength(s[1..]) > 0 {
      assert VariableAt(s, 0);
      assert Neutralize(s)[0] == '\'';
    } else {
      NeutralizeIdle(s[1..]);
      assert s == [s[0]] + s[1..];
      HasVariableTail(s[1..], s[0]);
    }
  }

  lemma {:induction false} ExpandIdle(s: string, m: Macro)
    requires !HasVariable(s)
    ensures Expand(s, m) == s
    decreases |s|
  {
    if s != "" {
      if Opening(m) <= s {
        assert s[0] == '$' && s[1] == '_';
        assert VariableAt(s, 0);
      }
      assert s == [s[0]] + s[1..];
      HasVariableTail(s[1..], s[0]);
      ExpandIdle(s[1..], m);
    }
  }

  /** An unsupported macro stands somewhere in `s`. */
  ghost predicate HasUnsupported(s: string) {
    exists i: nat :: i < |s| && UnsupportedAt(s[i..])
  }

  lemma HasUnsupportedFrom(s: string, n: nat)
    requires n <= |s| && forall i: nat :: i < n ==> !UnsupportedAt(s[i..])
    ensures HasUnsupported(s) <==> HasUnsupported(s[n..])
  {
    if HasUnsupported(s) {
      var i: nat :| i < |s| && UnsupportedAt(s[i..]);
      assert i >= n && s[i..] == s[n..][i - n..];
    }
    if HasUnsupported(s[n..]) {
      var i: nat :| i < |s[n..]| && UnsupportedAt(s[n..][i..]);
      assert s[n..][i..] == s[n + i..];
    }
  }

  lemma UnsupportedStartsWithDollar(s: string, i: nat)
    requires i < |s|
    ensures UnsupportedAt(s[i..]) ==> s[i] == '$'
  {
    if "$__" <= s[i..] {
      assert s[i] == s[i..][0] == "$__"[0];
    }
  }

  /** The scan misses nothing: matches hold no `$`, so none can hide inside another. */
  lemma {:induction false} FindsUnsupportedExactly(s: string)
    ensures FindsUnsupported(s) <==> HasUnsupported(s)
    decreases |s|
  {
    if s != "" {
      assert s[0..] == s;
      if UnsupportedAt(s) {
        assert HasUnsupported(s);
      } else {
        var n := if "$__" <= s && WordLength(s[3..]) > 0 then 3 + WordLength(s[3..]) else 1;
        forall i: nat | i < n ensures !UnsupportedAt(s[i..]) {
          if i > 0 {
            assert i >= 3 ==> s[i] == s[3..][i - 3];
            UnsupportedStartsWithDollar(s, i);
          }
        }
        HasUnsupportedFrom(s, n);
        FindsUnsupportedExactly(s[n..]);
      }
    }
  }

  lemma QuietIsSupported(s: string)
    requires !HasVariable(s)
    ensures !FindsUnsupported(s)
  {
    FindsUnsupportedExactly(s);
    if HasUnsupported(s) {
      var i: nat :| i < |s| && UnsupportedAt(s[i..]);
      assert s[i..][0] == '$' && s[i..][1] == '_';
      assert VariableAt(s, i);
    }
  }

  /** The result never names a variable, and text is accepted unchanged exactly when it names none. */
  lemma ValidateExactly(sql: string)
    ensures Validate(sql).Ok? ==> !HasVariable(Validate(sql).sql) && Validate(Validate(sql).sql) == Validate(sql)
    ensures Validate(sql) == Ok(sql) <==> !HasVariable(sql)
  {
    NeutralizeClears(ExpandAll(sql, MACROS));
    if !HasVariable(sql) {
      QuietIsFixed(sql);
    }
    if Validate(sql).Ok? {
      QuietIsFixed(Validate(sql).sql);
    }
  }

  lemma QuietIsFixed(s: string)
    requires !HasVariable(s)
    ensures Validate(s) == Ok(s)
  {
    ExpandIdle(s, TimeFilter);
    ExpandIdle(s, DateFilter);
    ExpandIdle(s, TimeInterval);
    assert MACROS[1..] == [DateFilter, TimeInterval] && MACROS[1..][1..] == [TimeInterval];
    assert MACROS[1..][1..][1..] == [];
    QuietIsSupported(s);
    NeutralizeIdle(s);
  }

  /** Rejection, exactly: an unsupported macro stands somewhere in the expanded text. */
  lemma RejectedExactly(sql: string)
    ensures Validate(sql) == UnsupportedMacro <==> HasUnsupported(ExpandAll(sql, MACROS))
  {
    FindsUnsupportedExactly(ExpandAll(sql, MACROS));
  }

  // ----- what a supported macro and a variable become

  predicate NoDollar(s: string) {
    forall i :: 0 <= i < |s| ==> s[i] != '$'
  }

  predicate IsIdentifier(w: string) {
    w != "" && forall i :: 0 <= i < |w| ==> IsWord(w[i])
  }

  lemma NoDollarQuiet(s: string)
    requires NoDollar(s)
    ensures !HasVariable(s)
  {
  }

  lemma NotOpened(m: Macro, s: string)
    requires s != "" && s[0] != '$'
    ensures MatchMacro(s, m) == NoMatch
  {
    OpeningShape(m);
  }

  lemma {:induction false} ExpandPrefix(p: string, s: string, m: Macro)
    requires NoDollar(p)
    ensures Expand(p + s, m) == p + Expand(s, m)
    decreases |p|
  {
    if p == "" {
      assert p + s == s;
    } else {
      var rest := p[1..] + s;
      ExpandPrefix(p[1..], s, m);
      Uncons(p, s);
      NotOpened(m, p + s);
      assert (p + s)[1..] == rest;
      Uncons(p, Expand(s, m));
    }
  }

  lemma {:induction false} WordLengthOf(w: string, rest: string)
    requires (forall i :: 0 <= i < |w| ==> IsWord(w[i])) && (rest == "" || !IsWord(rest[0]))
    ensures WordLength(w + rest) == |w|
    decreases |w|
  {
    if w == "" {
      assert w + rest == rest;
    } else {
      assert (w + rest)[1..] == w[1..] + rest;
      WordLengthOf(w[1..], rest);
    }
  }

  lemma {:induction false} SpaceLengthOf(w: string, rest: string)
    requires AllSpace(w) && (rest == "" || !IsSpace(rest[0]))
    ensures SpaceLength(w + rest) == |w|
    decreases |w|
  {
    if w == "" {
      assert w + rest == rest;
    } else {
      assert (w + rest)[1..] == w[1..] + rest;
      SpaceLengthOf(w[1..], rest);
    }
  }

  function MacroName(m: Macro): string {
    match m
    case TimeFilter => "__timeFilter"
    case DateFilter => "__dateFilter"
    case TimeInterval => "__timeInterval"
  }

  /**
   A query in pieces: plain text, a dollar sign that names nothing, a variable,
   and a macro call, which may have white space around its column.
   */
  datatype Piece =
    | Plain(text: string)
    | Dollar
    | Variable(name: string)
    | Call(macro: Macro, before: string, column: string, after: string)
  {
    /** A variable is not named like a macro: such a name must be a call. */
    predicate WellFormed() {
      match this
      case Plain(text) => NoDollar(text)
      case Dollar => true
      case Variable(name) => IsIdentifier(name) && forall m: Macro :: name != MacroName(m)
      case Call(_, before, column, after) => AllSpace(before) && IsIdentifier(column) && AllSpace(after)
    }

    /** A word character right after the piece would become part of it. */
    predicate OpenEnded() {
      Dollar? || Variable?
    }

    /** Ordinary variables and the interval variants may stay; other names with `__` may not. */
    predicate Supported() {
      Variable? && |name| > 2 && "__" <= name ==> "__interval" <= name
    }

    function Text(): string {
      match this
      case Plain(text) => text
      case Dollar => "$"
      case Variable(name) => "$" + name
      case Call(m, before, column, after) => ("$" + MacroName(m) + "(") + (before + (column + (after + ")")))
    }

    /** What the validator sees in its place. */
    function Meaning(): string {
      match this
      case Plain(text) => text
      case Dollar => "$"
      case Variable(_) => "'__var__'"
      case Call(TimeFilter, _, column, _) => column + " >= now() - INTERVAL 30 DAY"
      case Call(DateFilter, _, column, _) => "toDate(" + column + ") >= today() - 30"
      case Call(TimeInterval, _, _, _) => "toIntervalMinute(5)"
    }

    /** The piece after the pass for `m`. */
    function Passed(m: Macro): Piece {
      if Call? && macro == m then Plain(Replacement(m, column)) else this
    }
  }

  function TextOf(pieces: seq<Piece>): string {
    FlatMap(pieces, (p: Piece) => p.Text())
  }

  function MeaningOf(pieces: seq<Piece>): string {
    FlatMap(pieces, (p: Piece) => p.Meaning())
  }

  function PassedOf(pieces: seq<Piece>, m: Macro): seq<Piece> {
    seq(|pieces|, i requires 0 <= i < |pieces| => pieces[i].Passed(m))
  }

  /** After a variable or a dollar sign comes nothing that would lengthen the name, now or once calls are replaced. */
  predicate Follows(p: Piece, next: Piece) {
    p.OpenEnded() ==>
      next.OpenEnded() || (next.Plain? && next.text != "" && !IsWord(next.text[0]))
  }

  ghost predicate AllWellFormed(pieces: seq<Piece>) {
    && (forall i :: 0 <= i < |pieces| ==> pieces[i].WellFormed())
    && (forall i :: 0 <= i < |pieces| - 1 ==> Follows(pieces[i], pieces[i + 1]))
  }

  predicate EndsName(rest: string) {
    rest == "" || !IsWord(rest[0])
  }

  lemma NextEndsName(pieces: seq<Piece>, i: nat)
    requires AllWellFormed(pieces) && i < |pieces| && pieces[i].OpenEnded()
    ensures EndsName(TextOf(pieces[i + 1..]))
  {
    if i + 1 < |pieces| {
      assert Follows(pieces[i], pieces[i + 1]);
      assert TextOf(pieces[i + 1..]) == pieces[i + 1].Text() + TextOf(pieces[i + 1..][1..]);
    }
  }

  lemma SpaceThenWord(space: string, column: string, rest: string)
    requires AllSpace(space) && IsIdentifier(column)
    ensures SpaceLength(space + (column + rest)) == |space|
  {
    assert (column + rest)[0] == column[0];
    SpaceLengthOf(space, column + rest);
  }

  lemma WordThenSpace(column: string, space: string, q: string)
    requires IsIdentifier(column) && AllSpace(space)
    ensures WordLength(column + (space + (")" + q))) == |column|
  {
    var rest := space + (")" + q);
    assert rest[0] == if space == "" then ')' else space[0];
    WordLengthOf(column, rest);
  }

  lemma SpaceThenClose(space: string, q: string)
    requires AllSpace(space)
    ensures SpaceLength(space + (")" + q)) == |space|
  {
    assert (")" + q)[0] == ')';
    SpaceLengthOf(space, ")" + q);
  }

  lemma MatchArgumentShape(before: string, column: string, after: string, q: string)
    requires AllSpace(before) && IsIdentifier(column) && AllSpace(after)
    ensures MatchArgument(before + (column + (after + (")" + q))))
            == Match(column, |before| + |column| + |after| + 1)
  {
    var rest := after + (")" + q);
    SpaceThenWord(before, column, rest);
    After(before, column + rest);
    WordThenSpace(column, after, q);
    After(column, rest);
    SpaceThenClose(after, q);
    assert rest[|after|] == ')';
  }

  lemma After(s: string, t: string)
    ensures (s + t)[|s|..] == t && (s + t)[..|s|] == s
  {
  }

  lemma OpeningIs(m: Macro)
    ensures Opening(m) == "$" + MacroName(m) + "("
  {
  }

  lemma CallText(p: Piece, q: string)
    requires p.Call?
    ensures p.Text() + q == Opening(p.macro) + (p.before + (p.column + (p.after + (")" + q))))
    ensures |p.Text()| == |Opening(p.macro)| + |p.before| + |p.column| + |p.after| + 1
  {
    OpeningIs(p.macro);
    CallRegroup(Opening(p.macro), p.before, p.column, p.after, q);
  }

  lemma CallRegroup(open: string, before: string, column: string, after: string, q: string)
    ensures (open + (before + (column + (after + ")")))) + q == open + (before + (column + (after + (")" + q))))
  {
  }

  lemma MatchCallText(open: string, before: string, column: string, after: string, q: string)
    requires AllSpace(before) && IsIdentifier(column) && AllSpace(after)
    ensures MatchCall(open + (before + (column + (after + (")" + q)))), open)
            == Match(column, |open| + |before| + |column| + |after| + 1)
  {
    MatchArgumentShape(before, column, after, q);
    After(open, before + (column + (after + (")" + q))));
  }

  lemma {:induction false} SpaceRun(s: string)
    ensures AllSpace(s[..SpaceLength(s)])
  {
    if s != "" && IsSpace(s[0]) {
      SpaceRun(s[1..]);
      assert s[..SpaceLength(s)] == [s[0]] + s[1..][..SpaceLength(s[1..])];
    }
  }

  lemma PartsRejoin(s: string, a: nat, word: string, b: nat, rest: string, c: nat)
    requires a <= |s| && word == s[a..] && b <= |word| && rest == word[b..] && c < |rest| && rest[c] == ')'
    ensures s == s[..a] + (word[..b] + (rest[..c] + (")" + rest[c + 1..])))
  {
    assert rest == rest[..c] + (")" + rest[c + 1..]);
    assert word == word[..b] + rest;
    assert s == s[..a] + word;
  }

  lemma WordRun(s: string)
    requires WordLength(s) > 0
    ensures IsIdentifier(s[..WordLength(s)])
  {
  }

  /** Where the parts of an argument end. */
  lemma ArgumentPlaces(s: string) returns (a: nat, word: string, b: nat, rest: string, c: nat)
    requires MatchArgument(s).Match?
    ensures a <= |s| && word == s[a..] && b <= |word| && rest == word[b..] && c < |rest| && rest[c] == ')'
    ensures AllSpace(s[..a]) && IsIdentifier(word[..b]) && AllSpace(rest[..c])
  {
    a := SpaceLength(s);
    word := s[a..];
    b := WordLength(word);
    rest := word[b..];
    c := SpaceLength(rest);
    SpaceRun(s);
    WordRun(word);
    SpaceRun(rest);
  }

  lemma ArgumentParts(s: string) returns (before: string, column: string, after: string, q: string)
    requires MatchArgument(s).Match?
    ensures AllSpace(before) && IsIdentifier(column) && AllSpace(after)
    ensures s == before + (column + (after + (")" + q)))
  {
    var a, word, b, rest, c := ArgumentPlaces(s);
    before, column, after, q := s[..a], word[..b], rest[..c], rest[c + 1..];
    PartsRejoin(s, a, word, b, rest, c);
  }

  /** Nothing but a complete call matches: the opening, one word with white space around it, the closing bracket. */
  lemma MatchExactly(s: string, open: string)
    ensures MatchCall(s, open).Match? <==>
              exists before, column, after, q ::
                AllSpace(before) && IsIdentifier(column) && AllSpace(after)
                && s == open + (before + (column + (after + (")" + q))))
  {
    if MatchCall(s, open).Match? {
      var before, column, after, q := ArgumentParts(s[|open|..]);
      assert s == open + s[|open|..];
    }
    if before, column, after, q :|
      AllSpace(before) && IsIdentifier(column) && AllSpace(after)
      && s == open + (before + (column + (after + (")" + q))))
    {
      MatchCallText(open, before, column, after, q);
    }
  }

  lemma CallMatches(p: Piece, q: string)
    requires p.Call? && p.WellFormed()
    ensures MatchMacro(p.Text() + q, p.macro) == Match(p.column, |p.Text()|)
  {
    CallText(p, q);
    MatchCallText(Opening(p.macro), p.before, p.column, p.after, q);
  }

  lemma ExpandCall(p: Piece, q: string)
    requires p.Call? && p.WellFormed()
    ensures Expand(p.Text() + q, p.macro) == Replacement(p.macro, p.column) + Expand(q, p.macro)
  {
    CallMatches(p, q);
    After(p.Text(), q);
    ExpandMatch(p.Text() + q, p.macro);
  }

  lemma ExpandMatch(s: string, m: Macro)
    requires MatchMacro(s, m).Match?
    ensures Expand(s, m)
            == Replacement(m, MatchMacro(s, m).column) + Expand(s[MatchMacro(s, m).length..], m)
  {
  }

  lemma OpeningShape(m: Macro)
    ensures |Opening(m)| > 7 && Opening(m)[0] == '$' && NoDollar(Opening(m)[1..])
  {
  }

  lemma OpeningsDiffer(m: Macro, other: Macro)
    requires m != other
    ensures Opening(m)[3] != Opening(other)[3] || Opening(m)[7] != Opening(other)[7]
  {
  }

  lemma NotAnOpening(m: Macro, open: string, s: string)
    requires |open| > 7 && |Opening(m)| > 7 && open <= s
    requires Opening(m)[3] != open[3] || Opening(m)[7] != open[7]
    ensures !(Opening(m) <= s)
  {
  }

  /** A call has one dollar sign, at its start. */
  lemma CallTail(p: Piece)
    requires p.Call? && p.WellFormed()
    ensures Opening(p.macro) <= p.Text() && NoDollar(p.Text()[1..])
  {
    var open, rest := Opening(p.macro), p.before + (p.column + (p.after + ")"));
    OpeningShape(p.macro);
    OpeningIs(p.macro);
    assert NoDollar(rest);
    assert p.Text()[1..] == open[1..] + rest;
  }

  /** A call of another macro is left as it is. */
  lemma ExpandForeign(p: Piece, q: string, m: Macro)
    requires p.Call? && p.WellFormed() && p.macro != m
    ensures Expand(p.Text() + q, m) == p.Text() + Expand(q, m)
  {
    var call := p.Text();
    CallTail(p);
    OpeningShape(m);
    OpeningShape(p.macro);
    OpeningsDiffer(m, p.macro);
    NotAnOpening(m, Opening(p.macro), call + q);
    SkipFirst(call, q, m);
    ExpandPrefix(call[1..], q, m);
    Uncons(call, Expand(q, m));
  }

  lemma SkipFirst(call: string, q: string, m: Macro)
    requires call != "" && !(Opening(m) <= call + q)
    ensures Expand(call + q, m) == [call[0]] + Expand(call[1..] + q, m)
  {
    Uncons(call, q);
    assert (call + q)[1..] == call[1..] + q;
  }

  lemma MacroNameShape(m: Macro)
    ensures IsIdentifier(MacroName(m)) && MacroName(m)[0] == '_'
  {
  }

  /** Two names that start the same text and end where a word ends are one. */
  lemma SameName(name: string, q: string, other: string)
    requires IsIdentifier(name) && EndsName(q) && IsIdentifier(other) && "$" + other + "(" <= "$" + name + q
    ensures name == other
  {
    var s := "$" + name + q;
    var rest := s[|other| + 2..];
    assert s == "$" + other + "(" + rest;
    assert name + q == s[1..] == other + ("(" + rest);
    WordLengthOf(name, q);
    WordLengthOf(other, "(" + rest);
    assert name == (name + q)[..|name|] == other;
  }

  /** A name that is not a macro's does not open a call. */
  lemma NotAMacro(name: string, q: string, m: Macro)
    requires IsIdentifier(name) && name != MacroName(m) && EndsName(q)
    ensures !(Opening(m) <= "$" + name + q)
  {
    OpeningIs(m);
    MacroNameShape(m);
    if "$" + MacroName(m) + "(" <= "$" + name + q {
      SameName(name, q, MacroName(m));
    }
  }

  lemma ExpandVariable(name: string, q: string, m: Macro)
    requires IsIdentifier(name) && name != MacroName(m) && EndsName(q)
    ensures Expand("$" + name + q, m) == "$" + name + Expand(q, m)
  {
    NotAMacro(name, q, m);
    SkipFirst("$" + name, q, m);
    assert ("$" + name)[1..] == name;
    ExpandPrefix(name, q, m);
    Uncons("$" + name, Expand(q, m));
  }

  lemma ExpandDollar(q: string, m: Macro)
    requires EndsName(q)
    ensures Expand("$" + q, m) == "$" + Expand(q, m)
  {
    OpeningIs(m);
    MacroNameShape(m);
    assert Opening(m)[1] == '_';
    assert ("$" + q)[1..] == q;
  }

  lemma ExpandPiece(p: Piece, q: string, m: Macro)
    requires p.WellFormed() && (p.OpenEnded() ==> EndsName(q))
    ensures Expand(p.Text() + q, m) == p.Passed(m).Text() + Expand(q, m)
  {
    match p
    case Plain(text) => ExpandPrefix(text, q, m);
    case Dollar => ExpandDollar(q, m);
    case Variable(name) => ExpandVariable(name, q, m);
    case Call(macro, _, _, _) =>
      if macro == m {
        ExpandCall(p, q);
      } else {
        ExpandForeign(p, q, m);
      }
  }

  lemma ExpandPieces(pieces: seq<Piece>, m: Macro)
    requires AllWellFormed(pieces)
    ensures Expand(TextOf(pieces), m) == TextOf(PassedOf(pieces, m))
  {
    var f, g := (p: Piece) => p.Text(), (p: Piece) => p.Passed(m).Text();
    var h := (s: string) => Expand(s, m);
    forall i | 0 <= i < |pieces|
      ensures h(f(pieces[i]) + FlatMap(pieces[i + 1..], f)) == g(pieces[i]) + h(FlatMap(pieces[i + 1..], f))
    {
      if pieces[i].OpenEnded() {
        NextEndsName(pieces, i);
      }
      ExpandPiece(pieces[i], TextOf(pieces[i + 1..]), m);
    }
    FlatMapImage(pieces, f, g, h);
    FlatMapSame(pieces, PassedOf(pieces, m), g, f);
  }

  lemma ReplacementPlain(m: Macro, column: string)
    requires IsIdentifier(column)
    ensures NoDollar(Replacement(m, column))
  {
    var tail1, tail2 := " >= now() - INTERVAL 30 DAY", ") >= today() - 30";
    assert NoDollar("toDate(") && NoDollar(tail1) && NoDollar(tail2) && NoDollar("toIntervalMinute(5)");
    assert NoDollar(column);
  }

  lemma PassedWellFormed(pieces: seq<Piece>, m: Macro)
    requires AllWellFormed(pieces)
    ensures AllWellFormed(PassedOf(pieces, m))
  {
    var passed := PassedOf(pieces, m);
    forall i | 0 <= i < |pieces| ensures pieces[i].Passed(m).WellFormed() {
      assert pieces[i].WellFormed();
      if pieces[i].Call? {
        ReplacementPlain(m, pieces[i].column);
      }
    }
    forall i | 0 <= i < |passed| - 1 ensures Follows(passed[i], passed[i + 1]) {
      assert Follows(pieces[i], pieces[i + 1]);
    }
  }

  function PassedAll(pieces: seq<Piece>): seq<Piece> {
    PassedOf(PassedOf(PassedOf(pieces, TimeFilter), DateFilter), TimeInterval)
  }

  lemma ThreePasses(pieces: seq<Piece>)
    requires AllWellFormed(pieces)
    ensures ExpandAll(TextOf(pieces), MACROS) == TextOf(PassedAll(pieces)) && AllWellFormed(PassedAll(pieces))
  {
    assert MACROS[1..] == [DateFilter, TimeInterval] && MACROS[1..][1..] == [TimeInterval];
    assert MACROS[1..][1..][1..] == [];
    var once := PassedOf(pieces, TimeFilter);
    var twice := PassedOf(once, DateFilter);
    ExpandPieces(pieces, TimeFilter);
    PassedWellFormed(pieces, TimeFilter);
    ExpandPieces(once, DateFilter);
    PassedWellFormed(once, DateFilter);
    ExpandPieces(twice, TimeInterval);
    PassedWellFormed(twice, TimeInterval);
  }

  /** After the three passes no call is left; what each piece means and whether it is supported have not changed. */
  lemma AllPassed(pieces: seq<Piece>, i: nat)
    requires i < |pieces|
    ensures |PassedAll(pieces)| == |pieces|
    ensures var p := PassedAll(pieces)[i];
            && !p.Call? && p.Meaning() == pieces[i].Meaning() && p.Supported() == pieces[i].Supported()
  {
  }

  lemma {:induction false} NeutralizePrefix(p: string, s: string)
    requires NoDollar(p)
    ensures Neutralize(p + s) == p + Neutralize(s)
    decreases |p|
  {
    if p == "" {
      assert p + s == s;
    } else {
      NeutralizePrefix(p[1..], s);
      Uncons(p, s);
      assert (p + s)[1..] == p[1..] + s;
      Uncons(p, Neutralize(s));
    }
  }

  lemma NeutralizeVariable(name: string, q: string)
    requires IsIdentifier(name) && EndsName(q)
    ensures Neutralize("$" + name + q) == "'__var__'" + Neutralize(q)
  {
    var s := "$" + name + q;
    assert s[1..] == name + q;
    WordLengthOf(name, q);
    assert s[1 + |name|..] == q;
  }

  lemma NeutralizeDollar(q: string)
    requires EndsName(q)
    ensures Neutralize("$" + q) == "$" + Neutralize(q)
  {
    assert ("$" + q)[1..] == q;
  }

  lemma NeutralizePiece(p: Piece, q: string)
    requires p.WellFormed() && !p.Call? && (p.OpenEnded() ==> EndsName(q))
    ensures Neutralize(p.Text() + q) == p.Meaning() + Neutralize(q)
  {
    match p
    case Plain(text) => NeutralizePrefix(text, q);
    case Dollar => NeutralizeDollar(q);
    case Variable(name) => NeutralizeVariable(name, q);
  }

  lemma NeutralizePieces(pieces: seq<Piece>)
    requires AllWellFormed(pieces) && forall i :: 0 <= i < |pieces| ==> !pieces[i].Call?
    ensures Neutralize(TextOf(pieces)) == MeaningOf(pieces)
  {
    var f, g := (p: Piece) => p.Text(), (p: Piece) => p.Meaning();
    forall i | 0 <= i < |pieces|
      ensures Neutralize(f(pieces[i]) + FlatMap(pieces[i + 1..], f))
              == g(pieces[i]) + Neutralize(FlatMap(pieces[i + 1..], f))
    {
      if pieces[i].OpenEnded() {
        NextEndsName(pieces, i);
      }
      NeutralizePiece(pieces[i], TextOf(pieces[i + 1..]));
    }
    FlatMapImage(pieces, f, g, Neutralize);
  }

  // ----- what is rejected

  lemma NameFrom(name: string, q: string, prefix: string)
    requires EndsName(q) && IsIdentifier(prefix)
    ensures "$" + prefix <= "$" + name + q <==> prefix <= name
  {
    var s := "$" + name + q;
    if "$" + prefix <= s {
      assert forall i :: 0 <= i < |prefix| ==> s[i + 1] == ("$" + prefix)[i + 1] == prefix[i];
      assert forall i :: 0 <= i < |name| ==> s[i + 1] == name[i];
      assert q != "" ==> s[|name| + 1] == q[0];
    }
  }

  /** A variable is unsupported where it stands exactly when its name is. */
  lemma VariableUnsupported(name: string, q: string)
    requires IsIdentifier(name) && EndsName(q)
    ensures UnsupportedAt("$" + name + q) <==> !Variable(name).Supported()
  {
    var s := "$" + name + q;
    assert "$" + "__" == "$__" && "$" + "__interval" == "$__interval";
    NameFrom(name, q, "__");
    NameFrom(name, q, "__interval");
    if "__" <= name {
      assert s[3..] == name[2..] + q;
      WordLengthOf(name[2..], q);
    }
  }

  lemma PieceUnsupported(p: Piece, q: string)
    requires p.WellFormed() && !p.Call? && (p.OpenEnded() ==> EndsName(q))
    ensures HasUnsupported(p.Text() + q) <==> !p.Supported() || HasUnsupported(q)
  {
    var s, n := p.Text() + q, |p.Text()|;
    assert s[n..] == q;
    if p.Variable? {
      VariableUnsupported(p.name, q);
      assert s[0..] == s;
    }
    if p.Supported() {
      forall i: nat | i < n ensures !UnsupportedAt(s[i..]) {
        UnsupportedStartsWithDollar(s, i);
        assert s[0..] == s;
        assert i > 0 || p.Plain? ==> s[i] == p.Text()[i] != '$';
      }
      HasUnsupportedFrom(s, n);
    }
  }

  lemma {:induction false} PiecesUnsupported(pieces: seq<Piece>)
    requires AllWellFormed(pieces) && forall i :: 0 <= i < |pieces| ==> !pieces[i].Call?
    ensures HasUnsupported(TextOf(pieces)) <==> exists i :: 0 <= i < |pieces| && !pieces[i].Supported()
  {
    if pieces != [] {
      if pieces[0].OpenEnded() {
        NextEndsName(pieces, 0);
      }
      PieceUnsupported(pieces[0], TextOf(pieces[1..]));
      PiecesUnsupported(pieces[1..]);
      if i :| 0 <= i < |pieces[1..]| && !pieces[1..][i].Supported() {
        assert !pieces[i + 1].Supported();
      }
      if i :| 0 <= i < |pieces| && !pieces[i].Supported() {
        assert i > 0 ==> !pieces[1..][i - 1].Supported();
      }
    }
  }

  /**
   What becomes of a query, piece by piece: it is accepted exactly when all its
   names are supported, and then every call is replaced, every variable becomes
   the literal, and all other text stays in its place.
   */
  lemma ValidatedByPiece(pieces: seq<Piece>)
    requires AllWellFormed(pieces)
    ensures Validate(TextOf(pieces))
            == if forall i :: 0 <= i < |pieces| ==> pieces[i].Supported() then Ok(MeaningOf(pieces))
               else UnsupportedMacro
  {
    var passed := PassedAll(pieces);
    ThreePasses(pieces);
    forall i | 0 <= i < |pieces|
      ensures !passed[i].Call? && passed[i].Meaning() == pieces[i].Meaning()
      ensures passed[i].Supported() == pieces[i].Supported()
    {
      AllPassed(pieces, i);
    }
    PiecesUnsupported(passed);
    FindsUnsupportedExactly(TextOf(passed));
    NeutralizePieces(passed);
    FlatMapSame(passed, pieces, (p: Piece) => p.Meaning(), (p: Piece) => p.Meaning());
  }
}
