/**
 The string operations the modelled code uses, on ASCII text.
 */
module Text {

  /** What `str.strip` and `str.split` treat as white space. */
  predicate IsSpace(c: char) {
    c == ' ' || 9 <= c as int <= 13 || 28 <= c as int <= 31
  }

  /** Tab to carriage return, the four separators, and the blank, by their codes. */
  lemma IsSpaceExactly(c: char)
    ensures IsSpace(c) <==> c as int in {9, 10, 11, 12, 13, 28, 29, 30, 31, 32}
  {
  }

  function TrimLeft(s: string): string {
    if s != "" && IsSpace(s[0]) then TrimLeft(s[1..]) else s
  }

  function TrimRight(s: string): string {
    if s != "" && IsSpace(s[|s| - 1]) then TrimRight(s[..|s| - 1]) else s
  }

  /** `s.strip()`. */
  function Strip(s: string): string {
    TrimRight(TrimLeft(s))
  }

  /** The characters up to the first white space. */
  function FirstWord(s: string): (w: string)
    ensures |w| <= |s|
  {
    if s == "" || IsSpace(s[0]) then "" else [s[0]] + FirstWord(s[1..])
  }

  /** `s.split()`. */
  function Words(s: string): seq<string> {
    if s == "" then []
    else if IsSpace(s[0]) then Words(s[1..])
    else [FirstWord(s)] + Words(s[|FirstWord(s)|..])
  }

  function LowerChar(c: char): char {
    if 'A' <= c <= 'Z' then (c as int + 32) as char else c
  }

  /** `s.lower()`. */
  function Lower(s: string): (r: string)
    ensures |r| == |s|
  {
    seq(|s|, i requires 0 <= i < |s| => LowerChar(s[i]))
  }

  /** `needle in hay`. */
  predicate Contains(needle: string, hay: string) {
    needle <= hay || (hay != "" && Contains(needle, hay[1..]))
  }

  /** Python's order on strings: by the first difference, a prefix first. */
  predicate TextLeq(a: string, b: string) {
    if a == "" then true
    else if b == "" then false
    else if a[0] != b[0] then a[0] < b[0]
    else TextLeq(a[1..], b[1..])
  }

  lemma {:induction false} TextLeqTotal(a: string, b: string)
    ensures TextLeq(a, b) || TextLeq(b, a)
    ensures TextLeq(a, b) && TextLeq(b, a) ==> a == b
  {
    if a != "" && b != "" && a[0] == b[0] {
      TextLeqTotal(a[1..], b[1..]);
      assert a == [a[0]] + a[1..] && b == [b[0]] + b[1..];
    }
  }

  lemma {:induction false} TextLeqTransitive(a: string, b: string, c: string)
    requires TextLeq(a, b) && TextLeq(b, c)
    ensures TextLeq(a, c)
  {
    if a != "" && b != "" && c != "" && a[0] == b[0] == c[0] {
      TextLeqTransitive(a[1..], b[1..], c[1..]);
    }
  }

  // ----- the same operations, by position

  /** Dictionary order: a prefix, or smaller at the first place where they differ. */
  ghost predicate Alphabetical(a: string, b: string) {
    a <= b || exists k :: 0 <= k < |a| && k < |b| && a[..k] == b[..k] && a[k] < b[k]
  }

  lemma {:induction false} TextLeqExactly(a: string, b: string)
    ensures TextLeq(a, b) <==> Alphabetical(a, b)
  {
    if a != "" && b != "" && a[0] == b[0] {
      TextLeqExactly(a[1..], b[1..]);
      assert a == [a[0]] + a[1..] && b == [b[0]] + b[1..];
      if k :| 0 <= k < |a[1..]| && k < |b[1..]| && a[1..][..k] == b[1..][..k] && a[1..][k] < b[1..][k] {
        assert a[..k + 1] == [a[0]] + a[1..][..k] && b[..k + 1] == [b[0]] + b[1..][..k];
        assert a[k + 1] < b[k + 1];
      }
      if k :| 0 <= k < |a| && k < |b| && a[..k] == b[..k] && a[k] < b[k] {
        assert a[1..][..k - 1] == a[..k][1..] && b[1..][..k - 1] == b[..k][1..];
        assert a[1..][k - 1] < b[1..][k - 1];
      }
    } else if a != "" && b != "" {
      assert a[..0] == b[..0];
    }
  }

  predicate StandsAt(needle: string, hay: string, i: nat) {
    i + |needle| <= |hay| && hay[i..i + |needle|] == needle
  }

  lemma {:induction false} ContainsExactly(needle: string, hay: string)
    ensures Contains(needle, hay) <==> exists i: nat :: StandsAt(needle, hay, i)
  {
    if needle <= hay {
      assert StandsAt(needle, hay, 0);
    } else if hay != "" {
      ContainsExactly(needle, hay[1..]);
      if i: nat :| StandsAt(needle, hay[1..], i) {
        assert hay[1..][i..i + |needle|] == hay[i + 1..i + 1 + |needle|];
        assert StandsAt(needle, hay, i + 1);
      }
      if i: nat :| StandsAt(needle, hay, i) {
        assert i > 0 && hay[1..][i - 1..i - 1 + |needle|] == hay[i..i + |needle|];
        assert StandsAt(needle, hay[1..], i - 1);
      }
    }
  }

  predicate AllSpace(s: string) {
    forall i :: 0 <= i < |s| ==> IsSpace(s[i])
  }

  predicate NoSpace(s: string) {
    forall i :: 0 <= i < |s| ==> !IsSpace(s[i])
  }

  lemma {:induction false} TrimLeftExactly(s: string) returns (before: string)
    ensures AllSpace(before) && s == before + TrimLeft(s)
    ensures TrimLeft(s) != "" ==> !IsSpace(TrimLeft(s)[0])
  {
    if s != "" && IsSpace(s[0]) {
      var rest := TrimLeftExactly(s[1..]);
      before := [s[0]] + rest;
      assert s == [s[0]] + (rest + TrimLeft(s[1..]));
      assert [s[0]] + (rest + TrimLeft(s[1..])) == before + TrimLeft(s);
    } else {
      before := "";
    }
  }

  lemma {:induction false} TrimRightExactly(s: string) returns (after: string)
    ensures AllSpace(after) && s == TrimRight(s) + after
    ensures TrimRight(s) != "" ==> !IsSpace(TrimRight(s)[|TrimRight(s)| - 1])
  {
    if s != "" && IsSpace(s[|s| - 1]) {
      var rest := TrimRightExactly(s[..|s| - 1]);
      after := rest + [s[|s| - 1]];
      assert s == s[..|s| - 1] + [s[|s| - 1]];
    } else {
      after := "";
    }
  }

  /** Stripping takes off white space at both ends, and all of it. */
  lemma StripExactly(s: string) returns (before: string, after: string)
    ensures AllSpace(before) && AllSpace(after) && s == before + Strip(s) + after
    ensures Strip(s) != "" ==> !IsSpace(Strip(s)[0]) && !IsSpace(Strip(s)[|Strip(s)| - 1])
  {
    before := TrimLeftExactly(s);
    after := TrimRightExactly(TrimLeft(s));
    assert Strip(s) != "" ==> Strip(s)[0] == TrimLeft(s)[0];
  }

  /** `s[i..j]` is a longest stretch without white space. */
  ghost predicate RunAt(s: string, i: nat, j: nat) {
    && i < j <= |s| && (forall k :: i <= k < j ==> !IsSpace(s[k]))
    && (i == 0 || IsSpace(s[i - 1])) && (j == |s| || IsSpace(s[j]))
  }

  ghost predicate IsRun(s: string, w: string) {
    exists i: nat, j: nat :: RunAt(s, i, j) && s[i..j] == w
  }

  lemma {:induction false} FirstWordExactly(s: string)
    ensures FirstWord(s) == s[..|FirstWord(s)|]
    ensures forall k :: 0 <= k < |FirstWord(s)| ==> !IsSpace(s[k])
    ensures |FirstWord(s)| < |s| ==> IsSpace(s[|FirstWord(s)|])
  {
    if s != "" && !IsSpace(s[0]) {
      FirstWordExactly(s[1..]);
      assert s[..|FirstWord(s)|] == [s[0]] + s[1..][..|FirstWord(s[1..])|];
    }
  }

  /** Where the second step of `Words` starts. */
  function AfterFirst(s: string): (n: nat)
    requires s != ""
    ensures 0 < n <= |s|
  {
    if IsSpace(s[0]) then 1 else |FirstWord(s)|
  }

  lemma RunUp(s: string, n: nat, i: nat, j: nat)
    requires 0 < n <= |s| && RunAt(s[n..], i, j) && (i > 0 || IsSpace(s[n - 1]))
    ensures RunAt(s, n + i, n + j) && s[n + i..n + j] == s[n..][i..j]
  {
    var rest := s[n..];
    forall k | n + i <= k < n + j ensures !IsSpace(s[k]) {
      assert rest[k - n] == s[k];
    }
    assert i > 0 ==> rest[i - 1] == s[n + i - 1];
  }

  lemma RunDown(s: string, n: nat, i: nat, j: nat)
    requires n <= i && RunAt(s, i, j)
    ensures RunAt(s[n..], i - n, j - n) && s[n..][i - n..j - n] == s[i..j]
  {
    var rest := s[n..];
    forall k | i - n <= k < j - n ensures !IsSpace(rest[k]) {
      assert rest[k] == s[n + k];
    }
  }

  /** A run of the rest is a run of the whole. */
  lemma RunOfRest(s: string, w: string)
    requires s != "" && IsRun(s[AfterFirst(s)..], w)
    ensures IsRun(s, w)
  {
    var n := AfterFirst(s);
    var i: nat, j: nat :| RunAt(s[n..], i, j) && s[n..][i..j] == w;
    FirstWordExactly(s);
    assert s[n..][i] == s[n + i];
    RunUp(s, n, i, j);
  }

  /** A run of the whole is the first word or a run of the rest. */
  lemma RunOfWhole(s: string, w: string)
    requires s != "" && IsRun(s, w)
    ensures (!IsSpace(s[0]) && w == FirstWord(s)) || IsRun(s[AfterFirst(s)..], w)
  {
    var n := AfterFirst(s);
    var i: nat, j: nat :| RunAt(s, i, j) && s[i..j] == w;
    FirstWordExactly(s);
    if i >= n {
      RunDown(s, n, i, j);
    } else {
      assert i == 0 && j == n;
    }
  }

  /** The words of a text are its longest stretches without white space. */
  lemma {:induction false} WordsExactly(s: string, w: string)
    ensures w in Words(s) <==> IsRun(s, w)
    decreases |s|
  {
    if s != "" {
      var n := AfterFirst(s);
      FirstWordExactly(s);
      WordsExactly(s[n..], w);
      if IsRun(s[n..], w) {
        RunOfRest(s, w);
      }
      if !IsSpace(s[0]) {
        assert RunAt(s, 0, n) && s[0..n] == FirstWord(s);
      }
      if IsRun(s, w) {
        RunOfWhole(s, w);
      }
    }
  }

  /** Lower-casing moves a capital to the same place among the small letters, and changes nothing else. */
  lemma LowerExactly(s: string, i: nat)
    requires i < |s|
    ensures if 'A' <= s[i] <= 'Z' then 'a' <= Lower(s)[i] <= 'z' && Lower(s)[i] - 'a' == s[i] - 'A'
            else Lower(s)[i] == s[i]
  {
  }
}
