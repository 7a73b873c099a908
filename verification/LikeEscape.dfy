/** Free-text search in the query history: the escaped text, read back by the LIKE predicate
    (backend/app/query_history_repository.py; section 8.5 of ISO/IEC 9075-2). */
module LikeEscape {

  const ESCAPE: char := '\\'

  function Replace(s: string, c: char, with: string): string {
    if s == "" then "" else (if s[0] == c then with else [s[0]]) + Replace(s[1..], c, with)
  }

  /** Three replacements in sequence, the escape character first. */
  function EscapeLike(s: string): string {
    Replace(Replace(Replace(s, '\\', "\\\\"), '%', "\\%"), '_', "\\_")
  }

  /** LIKE with an escape character; eq is the matcher's comparison of characters. */
  predicate Like(eq: (char, char) -> bool, pattern: string, s: string)
    decreases |pattern| + |s|
  {
    if pattern == "" then s == ""
    else if pattern[0] == '%' then Like(eq, pattern[1..], s) || (s != "" && Like(eq, pattern, s[1..]))
    else if s == "" then false
    else if pattern[0] == '_' then Like(eq, pattern[1..], s[1..])
    else if pattern[0] == ESCAPE then |pattern| > 1 && eq(pattern[1], s[0]) && Like(eq, pattern[2..], s[1..])
    else eq(pattern[0], s[0]) && Like(eq, pattern[1..], s[1..])
  }

  // ----- Three replacements are one pass.

  predicate Special(c: char) {
    c == ESCAPE || c == '%' || c == '_'
  }

  function EscapeEach(s: string): string {
    if s == "" then "" else (if Special(s[0]) then [ESCAPE, s[0]] else [s[0]]) + EscapeEach(s[1..])
  }

  lemma {:induction false} ReplaceConcat(a: string, b: string, c: char, with: string)
    ensures Replace(a + b, c, with) == Replace(a, c, with) + Replace(b, c, with)
  {
    if a == "" {
      assert a + b == b;
    } else {
      assert (a + b)[1..] == a[1..] + b;
      ReplaceConcat(a[1..], b, c, with);
    }
  }

  lemma ReplaceTwo(x: char, y: char, c: char, with: string)
    ensures Replace([x], c, with) == if x == c then with else [x]
    ensures Replace([x, y], c, with) == (if x == c then with else [x]) + if y == c then with else [y]
  {
    ReplaceConcat([x], [y], c, with);
    assert [x] + [y] == [x, y];
    assert with + "" == with;
  }

  lemma {:induction false} EscapeIsOnePass(s: string)
    ensures EscapeLike(s) == EscapeEach(s)
  {
    if s != "" {
      EscapeIsOnePass(s[1..]);
      var first, rest := [s[0]], s[1..];
      EscapeConcat(first, rest);
      assert first + rest == s;
      EscapeOne(s[0]);
    }
  }

  lemma EscapeConcat(a: string, b: string)
    ensures EscapeLike(a + b) == EscapeLike(a) + EscapeLike(b)
  {
    ReplaceConcat(a, b, '\\', "\\\\");
    var a1, b1 := Replace(a, '\\', "\\\\"), Replace(b, '\\', "\\\\");
    ReplaceConcat(a1, b1, '%', "\\%");
    ReplaceConcat(Replace(a1, '%', "\\%"), Replace(b1, '%', "\\%"), '_', "\\_");
  }

  lemma EscapeOne(c: char)
    ensures EscapeLike([c]) == if Special(c) then [ESCAPE, c] else [c]
  {
    ReplaceTwo(c, c, '\\', "\\\\");
    ReplaceTwo(ESCAPE, ESCAPE, '%', "\\%");
    ReplaceTwo(ESCAPE, ESCAPE, '_', "\\_");
    ReplaceTwo(c, c, '%', "\\%");
    ReplaceTwo(c, c, '_', "\\_");
    ReplaceTwo(ESCAPE, '%', '_', "\\_");
  }

  // ----- The escaped text matches itself and nothing else.

  /** q stands in s at k, up to eq. */
  predicate OccursAt(eq: (char, char) -> bool, q: string, s: string, k: nat) {
    k + |q| <= |s| && forall i | 0 <= i < |q| :: eq(q[i], s[k + i])
  }

  lemma OccursStep(eq: (char, char) -> bool, q: string, s: string)
    requires q != "" && s != ""
    ensures OccursAt(eq, q, s, 0) <==> eq(q[0], s[0]) && OccursAt(eq, q[1..], s[1..], 0)
  {
    if eq(q[0], s[0]) && OccursAt(eq, q[1..], s[1..], 0) {
      forall i | 0 <= i < |q| ensures eq(q[i], s[i]) {
        assert i > 0 ==> q[i] == q[1..][i - 1] && s[i] == s[1..][i - 1];
      }
    }
    if OccursAt(eq, q, s, 0) {
      forall i | 0 <= i < |q| - 1 ensures eq(q[1..][i], s[1..][i]) {
        assert eq(q[i + 1], s[0 + (i + 1)]);
      }
    }
  }

  lemma OccursFits(eq: (char, char) -> bool, q: string, s: string)
    ensures OccursAt(eq, q, s, 0) ==> |q| <= |s|
    ensures q == "" ==> OccursAt(eq, q, s, 0)
  {
  }

  lemma {:induction false} LiteralPrefix(eq: (char, char) -> bool, q: string, rest: string, s: string)
    ensures Like(eq, EscapeEach(q) + rest, s) <==> OccursAt(eq, q, s, 0) && Like(eq, rest, s[|q|..])
  {
    hide OccursAt;
    OccursFits(eq, q, s);
    if q == "" {
      assert EscapeEach(q) + rest == rest;
    } else {
      var tail := EscapeEach(q[1..]) + rest;
      var pattern := EscapeEach(q) + rest;
      if Special(q[0]) {
        assert pattern == [ESCAPE, q[0]] + tail && pattern[2..] == tail;
      } else {
        assert pattern == [q[0]] + tail && pattern[1..] == tail;
      }
      if s != "" {
        LiteralPrefix(eq, q[1..], rest, s[1..]);
        OccursStep(eq, q, s);
        if |q| <= |s| {
          assert s[1..][|q[1..]|..] == s[|q|..];
        }
      }
    }
  }

  lemma {:induction false} AnythingMatches(eq: (char, char) -> bool, s: string)
    ensures Like(eq, "%", s)
  {
    if s != "" {
      AnythingMatches(eq, s[1..]);
    } else {
      assert "%"[1..] == "";
    }
  }

  lemma {:induction false} PercentSkips(eq: (char, char) -> bool, rest: string, s: string)
    ensures Like(eq, "%" + rest, s) <==> exists k :: 0 <= k <= |s| && Like(eq, rest, s[k..])
  {
    assert ("%" + rest)[1..] == rest && s[0..] == s;
    if s != "" {
      PercentSkips(eq, rest, s[1..]);
      if k :| 0 <= k <= |s| && Like(eq, rest, s[k..]) {
        if k > 0 {
          assert s[k..] == s[1..][k - 1..];
        }
      }
      if k :| 0 <= k <= |s[1..]| && Like(eq, rest, s[1..][k..]) {
        assert s[1..][k..] == s[k + 1..];
      }
    }
  }

  /** A search pattern matches exactly the texts that hold the query as a contiguous piece, whatever metacharacters
      the query has. */
  lemma SearchMatchesIff(eq: (char, char) -> bool, q: string, s: string)
    ensures Like(eq, "%" + EscapeLike(q) + "%", s) <==> exists k :: 0 <= k && OccursAt(eq, q, s, k)
  {
    EscapeIsOnePass(q);
    var inner := EscapeEach(q) + "%";
    assert "%" + EscapeLike(q) + "%" == "%" + inner;
    PercentSkips(eq, inner, s);
    forall k | 0 <= k <= |s| ensures Like(eq, inner, s[k..]) <==> OccursAt(eq, q, s, k) {
      LiteralPrefix(eq, q, "%", s[k..]);
      if |q| <= |s[k..]| {
        AnythingMatches(eq, s[k..][|q|..]);
      }
      ShiftOccurrence(eq, q, s, k);
    }
    forall k | 0 <= k && OccursAt(eq, q, s, k) ensures k <= |s| && Like(eq, inner, s[k..]) {
    }
  }

  /** Without escaping, a search for one underscore finds every text but the empty one, and for one percent sign every
      text. */
  lemma UnescapedFindsAnything(eq: (char, char) -> bool, s: string)
    ensures Like(eq, "%" + "_" + "%", s) <==> s != ""
    ensures Like(eq, "%" + "%" + "%", s)
  {
    PercentSkips(eq, "_" + "%", s);
    assert "%" + "_" + "%" == "%" + ("_" + "%") && ("_" + "%")[1..] == "%";
    assert s[0..] == s;
    AnythingMatches(eq, s);
    PercentSkips(eq, "%", s);
    PercentSkips(eq, "%" + "%", s);
    assert "%" + "%" + "%" == "%" + ("%" + "%");
    if s != "" {
      AnythingMatches(eq, s[1..]);
      assert Like(eq, "_" + "%", s[0..]);
    } else {
      assert forall k :: 0 <= k <= |s| ==> s[k..] == "";
    }
  }

  lemma ShiftOccurrence(eq: (char, char) -> bool, q: string, s: string, k: nat)
    requires k <= |s|
    ensures OccursAt(eq, q, s[k..], 0) <==> OccursAt(eq, q, s, k)
  {
    if OccursAt(eq, q, s[k..], 0) {
      forall i | 0 <= i < |q| ensures eq(q[i], s[k + i]) {
        assert eq(q[i], s[k..][0 + i]);
      }
    }
    if OccursAt(eq, q, s, k) {
      forall i | 0 <= i < |q| ensures eq(q[i], s[k..][0 + i]) {
        assert eq(q[i], s[k + i]);
      }
    }
  }

  // ----- The order of the replacements matters.

  function EscapeLast(s: string): string {
    Replace(Replace(Replace(s, '%', "\\%"), '_', "\\_"), '\\', "\\\\")
  }

  function Wildcards(s: string): nat {
    if s == "" then 0 else (if s[0] == '%' || s[0] == '_' then 1 else 0) + Wildcards(s[1..])
  }

  /** Escaping the escape character last escapes the escapes just written: it is right exactly on texts without
      wildcards. */
  lemma OrderMatters(s: string)
    ensures EscapeLast(s) == EscapeLike(s) <==> Wildcards(s) == 0
  {
    EscapeLastLength(s);
    if Wildcards(s) == 0 {
      NoWildcards(s);
    }
  }

  lemma {:induction false} EscapeLastLength(s: string)
    ensures |EscapeLast(s)| == |EscapeLike(s)| + Wildcards(s)
  {
    if s != "" {
      EscapeLastLength(s[1..]);
      var first, rest := [s[0]], s[1..];
      assert first + rest == s;
      EscapeConcat(first, rest);
      EscapeLastConcat(first, rest);
      EscapeOne(s[0]);
      EscapeLastOne(s[0]);
    }
  }

  lemma EscapeLastConcat(a: string, b: string)
    ensures EscapeLast(a + b) == EscapeLast(a) + EscapeLast(b)
  {
    ReplaceConcat(a, b, '%', "\\%");
    var a1, b1 := Replace(a, '%', "\\%"), Replace(b, '%', "\\%");
    ReplaceConcat(a1, b1, '_', "\\_");
    ReplaceConcat(Replace(a1, '_', "\\_"), Replace(b1, '_', "\\_"), '\\', "\\\\");
  }

  lemma EscapeLastOne(c: char)
    ensures EscapeLast([c]) ==
            if c == '%' || c == '_' then [ESCAPE, ESCAPE, c] else if c == ESCAPE then [ESCAPE, ESCAPE] else [c]
  {
    ReplaceTwo(c, c, '%', "\\%");
    ReplaceTwo(c, c, '_', "\\_");
    ReplaceTwo(c, c, '\\', "\\\\");
    ReplaceTwo(ESCAPE, '%', '_', "\\_");
    ReplaceTwo(ESCAPE, '%', '\\', "\\\\");
    ReplaceTwo(ESCAPE, '_', '\\', "\\\\");
  }

  lemma {:induction false} NoWildcards(s: string)
    requires Wildcards(s) == 0
    ensures EscapeLast(s) == EscapeLike(s)
  {
    if s != "" {
      NoWildcards(s[1..]);
      var first, rest := [s[0]], s[1..];
      assert first + rest == s;
      EscapeConcat(first, rest);
      EscapeLastConcat(first, rest);
      EscapeOne(s[0]);
      EscapeLastOne(s[0]);
    }
  }
}
