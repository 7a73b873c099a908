/** Strings put together with a separator character, and whitespace. */
module Separators {

  /** The information separator the payloads are joined with. */
  const UNIT: char := '\U{1F}'

  /** Whitespace, the way Python strips and splits; the information separators are among it. */
  predicate IsSpace(c: char) {
    || c == ' ' || '\t' <= c <= '\r' || '\U{1C}' <= c <= '\U{1F}' || c == '\U{85}' || c == '\U{A0}'
    || c == '\U{1680}' || '\U{2000}' <= c <= '\U{200A}' || c == '\U{2028}' || c == '\U{2029}' || c == '\U{202F}'
    || c == '\U{205F}' || c == '\U{3000}'
  }

  /** A head without the separator can be read back from head + separator + tail. */
  lemma HeadIsReadBack(sep: char, a: string, x: string, b: string, y: string)
    requires sep !in a && sep !in b && a + [sep] + x == b + [sep] + y
    ensures a == b && x == y
  {
    var s := a + [sep] + x;
    assert s[|a|] == sep && s[|b|] == sep;
    assert a == s[..|a|] && b == s[..|b|];
    assert x == s[|a| + 1..] && y == s[|b| + 1..];
  }

  /** A tail without the separator can be read back from head + separator + tail. */
  lemma TailIsReadBack(sep: char, a: string, x: string, b: string, y: string)
    requires sep !in x && sep !in y && a + [sep] + x == b + [sep] + y
    ensures a == b && x == y
  {
    var s := a + [sep] + x;
    assert s[|a|] == sep && s[|b|] == sep;
    assert x == s[|a| + 1..] && y == s[|b| + 1..];
    assert a == s[..|a|] && b == s[..|b|];
  }

  /** The words, each pair separated once. */
  function Join(sep: string, words: seq<string>): string {
    if words == [] then "" else if |words| == 1 then words[0] else words[0] + sep + Join(sep, words[1..])
  }

  /** No word is empty or holds the character. */
  predicate AreWords(c: char, words: seq<string>) {
    forall w | w in words :: w != "" && c !in w
  }

  lemma JoinedBegins(sep: string, words: seq<string>)
    requires sep != "" && words != [] && AreWords(sep[0], words)
    ensures AreWords(sep[0], words[1..]) && words[0] != "" && sep[0] !in words[0]
    ensures |words| == 1 ==> Join(sep, words) == words[0]
    ensures |words| > 1 ==>
              && Join(sep, words) == words[0] + [sep[0]] + (sep[1..] + Join(sep, words[1..]))
              && sep[0] in Join(sep, words)
  {
    assert words[0] in words && forall w | w in words[1..] :: w in words;
    if |words| > 1 {
      SeparatorSplits(sep, words[0], Join(sep, words[1..]));
    }
  }

  lemma SeparatorSplits(sep: string, head: string, rest: string)
    requires sep != ""
    ensures head + sep + rest == head + [sep[0]] + (sep[1..] + rest) && sep[0] in head + sep + rest
  {
    assert sep == [sep[0]] + sep[1..];
    assert (head + sep + rest)[|head|] == sep[0];
  }

  /** A list of words can be read back when no word is empty or holds the first character of the separator. */
  lemma {:induction false} WordsAreReadBack(sep: string, a: seq<string>, b: seq<string>)
    requires sep != "" && AreWords(sep[0], a) && AreWords(sep[0], b) && Join(sep, a) == Join(sep, b)
    ensures a == b
  {
    hide AreWords;
    if a != [] {
      JoinedBegins(sep, a);
    }
    if b != [] {
      JoinedBegins(sep, b);
    }
    if |a| > 1 && |b| > 1 {
      hide Join;
      var x, y := Join(sep, a[1..]), Join(sep, b[1..]);
      HeadIsReadBack(sep[0], a[0], sep[1..] + x, b[0], sep[1..] + y);
      assert x == (sep[1..] + x)[|sep| - 1..] && y == (sep[1..] + y)[|sep| - 1..];
      WordsAreReadBack(sep, a[1..], b[1..]);
      assert a == [a[0]] + a[1..] && b == [b[0]] + b[1..];
    }
  }
}
