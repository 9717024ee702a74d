/**
 Splitting a SELECT list at its top-level commas: `_split_top_level` of
 benchmarks/core/fakes.py.
 */
module SelectList {
  import opened Text

  /** How a character changes the bracket depth. */
  function Step(c: char): int {
    if c == '(' || c == '[' then 1 else if c == ')' || c == ']' then -1 else 0
  }

  function Net(s: string): int {
    if s == "" then 0 else Step(s[0]) + Net(s[1..])
  }

  /** The pieces before trimming: `buf` holds the current one. */
  function Pieces(s: string, depth: int, buf: string): seq<string>
    decreases |s|
  {
    if s == "" then if buf == "" then [] else [buf]
    else
      var d := depth + Step(s[0]);
      if s[0] == ',' && d == 0 then [buf] + Pieces(s[1..], d, "") else Pieces(s[1..], d, buf + [s[0]])
  }

  /** `[p.strip() for p in parts if p.strip()]`. */
  function Clean(parts: seq<string>): seq<string> {
    if parts == [] then []
    else (if Strip(parts[0]) == "" then [] else [Strip(parts[0])]) + Clean(parts[1..])
  }

  function Split(s: string): seq<string> {
    Clean(Pieces(s, 0, ""))
  }

  /** `_split_top_level`. */
  method SplitTopLevel(selectList: string) returns (r: seq<string>)
    ensures r == Split(selectList)
    ensures WellFormed(r) && Split(Join(r, ", ")) == r
  {
    var parts: seq<string>, depth, buf := [], 0, "";
    var k := 0;
    while k < |selectList|
      invariant 0 <= k <= |selectList|
      invariant parts + Pieces(selectList[k..], depth, buf) == Pieces(selectList, 0, "")
    {
      var ch := selectList[k];
      if ch == '(' || ch == '[' {
        depth := depth + 1;
      } else if ch == ')' || ch == ']' {
        depth := depth - 1;
      }
      assert selectList[k..][1..] == selectList[k + 1..];
      if ch == ',' && depth == 0 {
        parts := parts + [buf];
        buf := "";
      } else {
        buf := buf + [ch];
      }
      k := k + 1;
    }
    assert selectList[k..] == "";
    if buf != "" {
      parts := parts + [buf];
    }
    assert parts == Pieces(selectList, 0, "");
    r := Clean(parts);
    SplitWellFormed(selectList);
    SplitUndoesJoin(r);
  }

  function Join(parts: seq<string>, sep: string): string {
    if parts == [] then ""
    else if |parts| == 1 then parts[0]
    else parts[0] + sep + Join(parts[1..], sep)
  }

  /** No comma of `s`, entered at `depth`, is at depth zero. */
  predicate NoTopComma(s: string, depth: int) {
    s == "" || (!(s[0] == ',' && depth == 0) && NoTopComma(s[1..], depth + Step(s[0])))
  }

  /** The net depth counts round and square brackets. */
  lemma {:induction false} NetExactly(s: string)
    ensures var m := multiset(s); Net(s) + m[')'] + m[']'] == m['('] + m['[']
  {
    if s != "" {
      NetExactly(s[1..]);
      assert s == [s[0]] + s[1..];
    }
  }

  /** A comma splits exactly where all brackets before it are closed. */
  lemma {:induction false} NoTopCommaExactly(s: string, depth: int)
    ensures NoTopComma(s, depth) <==> forall i :: 0 <= i < |s| && s[i] == ',' ==> depth + Net(s[..i]) != 0
  {
    if s != "" {
      NoTopCommaExactly(s[1..], depth + Step(s[0]));
      forall i | 0 < i < |s| ensures Net(s[..i]) == Step(s[0]) + Net(s[1..][..i - 1]) {
        assert s[..i][1..] == s[1..][..i - 1];
      }
      if forall i :: 0 <= i < |s| && s[i] == ',' ==> depth + Net(s[..i]) != 0 {
        forall i | 0 <= i < |s[1..]| && s[1..][i] == ','
          ensures depth + Step(s[0]) + Net(s[1..][..i]) != 0
        {
          assert s[i + 1] == ',' && s[1..][..i + 1 - 1] == s[1..][..i];
        }
      }
      assert s[..0] == "";
    }
  }

  /** A part: trimmed, not empty, and not itself splittable. */
  predicate IsPart(p: string) {
    p != "" && Strip(p) == p && NoTopComma(p, 0)
  }

  /** A list of parts in which brackets close before each separator. */
  predicate WellFormed(parts: seq<string>) {
    && (forall i :: 0 <= i < |parts| ==> IsPart(parts[i]))
    && (forall i :: 0 <= i < |parts| - 1 ==> Net(parts[i]) == 0)
  }

  // ----- nothing is lost before trimming

  /** Joined with commas, the pieces are `text`, but for an empty last piece. */
  predicate Rejoins(pieces: seq<string>, text: string) {
    Join(pieces, ",") == text || Join(pieces, ",") + "," == text
  }

  lemma RejoinsCons(buf: string, rest: seq<string>, text: string)
    requires Rejoins(rest, text) && (rest == [] ==> text == "")
    ensures Rejoins([buf] + rest, buf + "," + text)
  {
    assert ([buf] + rest)[1..] == rest;
    if rest == [] {
      assert buf + "," + text == buf + ",";
    } else if Join(rest, ",") + "," == text {
      assert buf + "," + text == buf + "," + Join(rest, ",") + ",";
    }
  }

  lemma {:induction false} PiecesRejoin(s: string, depth: int, buf: string)
    ensures Rejoins(Pieces(s, depth, buf), buf + s)
    ensures s != "" || buf != "" ==> Pieces(s, depth, buf) != []
    decreases |s|
  {
    if s == "" {
      assert buf + s == buf;
    } else {
      var d := depth + Step(s[0]);
      if s[0] == ',' && d == 0 {
        PiecesRejoin(s[1..], d, "");
        assert "" + s[1..] == s[1..];
        RejoinsCons(buf, Pieces(s[1..], d, ""), s[1..]);
        assert buf + s == buf + "," + s[1..];
      } else {
        PiecesRejoin(s[1..], d, buf + [s[0]]);
        assert buf + [s[0]] + s[1..] == buf + s;
      }
    }
  }

  /** Before trimming, nothing but one trailing comma can be lost. */
  lemma SplitLosesNothing(s: string)
    ensures Rejoins(Pieces(s, 0, ""), s)
  {
    PiecesRejoin(s, 0, "");
    assert "" + s == s;
  }

  // ----- trimming

  predicate Trimmed(s: string) {
    s == "" || (!IsSpace(s[0]) && !IsSpace(s[|s| - 1]))
  }

  lemma {:induction false} TrimLeftFacts(s: string)
    ensures TrimLeft(s) == "" || !IsSpace(TrimLeft(s)[0])
    ensures NoTopComma(s, 0) ==> NoTopComma(TrimLeft(s), 0)
    ensures Net(TrimLeft(s)) == Net(s)
  {
    if s != "" && IsSpace(s[0]) {
      TrimLeftFacts(s[1..]);
    }
  }

  lemma {:induction false} NetConcat(s: string, t: string)
    ensures Net(s + t) == Net(s) + Net(t)
  {
    if s == "" {
      assert s + t == t;
    } else {
      NetConcat(s[1..], t);
      assert (s + t)[1..] == s[1..] + t;
    }
  }

  lemma {:induction false} NoTopCommaConcat(s: string, t: string, depth: int)
    ensures NoTopComma(s + t, depth) <==> NoTopComma(s, depth) && NoTopComma(t, depth + Net(s))
  {
    if s == "" {
      assert s + t == t;
    } else {
      NoTopCommaConcat(s[1..], t, depth + Step(s[0]));
      assert (s + t)[1..] == s[1..] + t;
    }
  }

  lemma {:induction false} TrimRightFacts(s: string)
    ensures TrimRight(s) == "" || !IsSpace(TrimRight(s)[|TrimRight(s)| - 1])
    ensures TrimRight(s) <= s
    ensures NoTopComma(s, 0) ==> NoTopComma(TrimRight(s), 0)
    ensures Net(TrimRight(s)) == Net(s)
  {
    if s != "" && IsSpace(s[|s| - 1]) {
      var front := s[..|s| - 1];
      TrimRightFacts(front);
      assert s == front + [s[|s| - 1]];
      NetConcat(front, [s[|s| - 1]]);
      NoTopCommaConcat(front, [s[|s| - 1]], 0);
    }
  }

  lemma StripFacts(s: string)
    ensures Trimmed(Strip(s))
    ensures NoTopComma(s, 0) ==> NoTopComma(Strip(s), 0)
    ensures Net(Strip(s)) == Net(s)
    ensures Trimmed(s) ==> Strip(s) == s
  {
    TrimLeftFacts(s);
    TrimRightFacts(TrimLeft(s));
  }

  // ----- splitting gives well-formed lists

  /** Brackets close before every piece but the last, and no piece can be split again. */
  predicate Splittable(parts: seq<string>) {
    && (forall i :: 0 <= i < |parts| ==> NoTopComma(parts[i], 0))
    && (forall i :: 0 <= i < |parts| - 1 ==> Net(parts[i]) == 0)
  }

  lemma {:induction false} PiecesSplittable(s: string, depth: int, buf: string)
    requires NoTopComma(buf, 0) && Net(buf) == depth
    ensures Splittable(Pieces(s, depth, buf))
    decreases |s|
  {
    if s != "" {
      var d := depth + Step(s[0]);
      if s[0] == ',' && d == 0 {
        PiecesSplittable(s[1..], d, "");
      } else {
        NetConcat(buf, [s[0]]);
        NoTopCommaConcat(buf, [s[0]], 0);
        PiecesSplittable(s[1..], d, buf + [s[0]]);
      }
    }
  }

  lemma {:induction false} CleanWellFormed(parts: seq<string>)
    requires Splittable(parts)
    ensures WellFormed(Clean(parts))
    ensures Clean(parts) != [] ==> parts != []
  {
    if parts != [] {
      StripFacts(parts[0]);
      StripFacts(Strip(parts[0]));
      CleanWellFormed(parts[1..]);
    }
  }

  lemma SplitWellFormed(s: string)
    ensures WellFormed(Split(s))
  {
    PiecesSplittable(s, 0, "");
    CleanWellFormed(Pieces(s, 0, ""));
  }

  // ----- splitting undoes joining

  lemma {:induction false} PiecesThrough(p: string, rest: string, depth: int, buf: string)
    requires NoTopComma(p, depth)
    ensures Pieces(p + rest, depth, buf) == Pieces(rest, depth + Net(p), buf + p)
    decreases |p|
  {
    if p == "" {
      assert p + rest == rest && buf + p == buf;
    } else {
      assert (p + rest)[1..] == p[1..] + rest;
      PiecesThrough(p[1..], rest, depth + Step(p[0]), buf + [p[0]]);
      assert buf + [p[0]] + p[1..] == buf + p;
    }
  }

  /** A part with closed brackets, then a separator, is cut off as one piece. */
  lemma PartThenRest(p: string, tail: string, buf: string)
    requires NoTopComma(p, 0) && Net(p) == 0
    ensures Pieces(p + ", " + tail, 0, buf) == [buf + p] + Pieces(tail, 0, " ")
  {
    var rest := ", " + tail;
    assert p + ", " + tail == p + rest;
    PiecesThrough(p, rest, 0, buf);
    assert rest[0] == ',' && rest[1..] == " " + tail;
    assert (" " + tail)[0] == ' ' && (" " + tail)[1..] == tail;
    assert "" + [' '] == " ";
    assert Pieces(" " + tail, 0, "") == Pieces(tail, 0, " ");
  }

  lemma {:induction false} SplitJoined(parts: seq<string>, buf: string)
    requires WellFormed(parts) && parts != [] && (buf == "" || buf == " ")
    ensures Clean(Pieces(Join(parts, ", "), 0, buf)) == parts
    decreases |parts|
  {
    var p := parts[0];
    StripSpace(p, buf);
    if |parts| == 1 {
      PiecesThrough(p, "", 0, buf);
      assert p + "" == p;
      assert [buf + p][1..] == [];
    } else {
      var tail := Join(parts[1..], ", ");
      PartThenRest(p, tail, buf);
      SplitJoined(parts[1..], " ");
      CleanCons(buf + p, Pieces(tail, 0, " "));
    }
  }

  lemma CleanCons(piece: string, rest: seq<string>)
    requires Strip(piece) != ""
    ensures Clean([piece] + rest) == [Strip(piece)] + Clean(rest)
  {
    assert ([piece] + rest)[1..] == rest;
  }

  lemma StripSpace(p: string, buf: string)
    requires IsPart(p) && (buf == "" || buf == " ")
    ensures Strip(buf + p) == p
  {
    if buf == " " {
      assert (buf + p)[1..] == p;
    } else {
      assert buf + p == p;
    }
  }

  lemma SplitUndoesJoin(parts: seq<string>)
    requires WellFormed(parts)
    ensures Split(Join(parts, ", ")) == parts
  {
    if parts != [] {
      SplitJoined(parts, "");
    }
  }

  /** Joining and splitting is the identity on exactly the well-formed lists. */
  lemma RoundTripExactly(parts: seq<string>)
    ensures Split(Join(parts, ", ")) == parts <==> WellFormed(parts)
  {
    SplitWellFormed(Join(parts, ", "));
    if WellFormed(parts) {
      SplitUndoesJoin(parts);
    }
  }
}
