/** The key of the SQL result cache (backend/app/cache/result_cache_key.py). */
module ResultCacheKey {
  import opened Wrappers
  import opened Separators

  const VERSION := "v1"

  /** The maximal runs of other characters. */
  function Words(s: string): (words: seq<string>)
    ensures s != "" && !IsSpace(s[0]) ==> words != []
  {
    if s == "" then []
    else if IsSpace(s[0]) then Words(s[1..])
    else if |s| == 1 || IsSpace(s[1]) then [[s[0]]] + Words(s[1..])
    else
      var rest := Words(s[1..]);
      [[s[0]] + rest[0]] + rest[1..]
  }

  predicate IsWord(w: string) {
    w != "" && forall c | c in w :: !IsSpace(c)
  }

  lemma {:induction false} WordsAreWords(s: string)
    ensures forall w | w in Words(s) :: IsWord(w)
  {
    if s != "" {
      WordsAreWords(s[1..]);
      if !IsSpace(s[0]) && |s| > 1 && !IsSpace(s[1]) {
        var rest := Words(s[1..]);
        assert IsWord(rest[0]);
        forall w | w in Words(s) ensures IsWord(w) {
          assert w == [s[0]] + rest[0] || w in rest;
        }
      }
    }
  }

  lemma {:induction false} FirstWord(w: string, rest: string)
    requires IsWord(w) && (rest == "" || IsSpace(rest[0]))
    ensures Words(w + rest) == [w] + Words(rest)
  {
    assert (w + rest)[1..] == w[1..] + rest;
    if |w| == 1 {
      assert w[1..] + rest == rest && [w[0]] == w;
    } else {
      assert !IsSpace(w[1]);
      FirstWord(w[1..], rest);
      assert [w[0]] + w[1..] == w;
    }
  }

  /** Splitting undoes joining with a blank. */
  lemma {:induction false} SplitJoin(words: seq<string>)
    requires forall w | w in words :: IsWord(w)
    ensures Words(Join(" ", words)) == words
  {
    if |words| == 1 {
      assert words[0] in words && words[0] + "" == words[0];
      FirstWord(words[0], "");
      assert [words[0]] + [] == words;
    } else if |words| > 1 {
      var rest := Join(" ", words[1..]);
      SplitJoin(words[1..]);
      assert words[0] in words;
      FirstWord(words[0], " " + rest);
      assert (" " + rest)[1..] == rest;
      assert words[0] + " " + rest == words[0] + (" " + rest);
      assert [words[0]] + words[1..] == words;
    }
  }

  lemma {:induction false} JoinedHasNoUnit(words: seq<string>)
    requires forall w | w in words :: IsWord(w)
    ensures UNIT !in Join(" ", words)
  {
    if words != [] {
      assert words[0] in words;
      if |words| > 1 {
        JoinedHasNoUnit(words[1..]);
      }
    }
  }

  function NormalizeQuery(fold: string -> string, q: Option<string>): string {
    if q.None? then "" else Join(" ", Words(fold(q.value)))
  }

  function FoldedWords(fold: string -> string, q: Option<string>): seq<string> {
    if q.None? then [] else Words(fold(q.value))
  }

  /** Two queries normalise alike exactly when their folded words agree; a missing query is one without words. */
  lemma NormalizedAlikeIff(fold: string -> string, p: Option<string>, q: Option<string>)
    ensures NormalizeQuery(fold, p) == NormalizeQuery(fold, q) <==> FoldedWords(fold, p) == FoldedWords(fold, q)
    ensures UNIT !in NormalizeQuery(fold, p)
  {
    if p.Some? { WordsAreWords(fold(p.value)); }
    if q.Some? { WordsAreWords(fold(q.value)); }
    SplitJoin(FoldedWords(fold, p));
    SplitJoin(FoldedWords(fold, q));
    JoinedHasNoUnit(FoldedWords(fold, p));
  }

  function OrEmpty(s: Option<string>): string {
    if s.Some? then s.value else ""
  }

  function Payload(fold: string -> string, q: Option<string>, dialect: Option<string>,
                   signature: Option<string>): string {
    Join([UNIT], [VERSION, OrEmpty(dialect), OrEmpty(signature), NormalizeQuery(fold, q)])
  }

  function CacheKey(fold: string -> string, hash: string -> string,
                    q: Option<string>, dialect: Option<string>, signature: Option<string>): string {
    hash(Payload(fold, q, dialect, signature))
  }

  lemma PayloadParts(fold: string -> string, q: Option<string>, dialect: Option<string>, signature: Option<string>)
    ensures Payload(fold, q, dialect, signature) ==
            (VERSION + [UNIT] + OrEmpty(dialect) + [UNIT] + OrEmpty(signature)) + [UNIT] + NormalizeQuery(fold, q)
  {
    var d, s, n := OrEmpty(dialect), OrEmpty(signature), NormalizeQuery(fold, q);
    assert [VERSION, d, s, n][1..] == [d, s, n];
    assert [d, s, n][1..] == [s, n];
    assert [s, n][1..] == [n];
    assert Join([UNIT], [s, n]) == s + [UNIT] + n;
    assert Join([UNIT], [d, s, n]) == d + [UNIT] + (s + [UNIT] + n);
  }

  /** A missing question, dialect or signature has the key of an empty one, and the payload begins with its version. */
  lemma MissingIsEmpty(fold: string -> string, hash: string -> string,
                       q: Option<string>, d: Option<string>, s: Option<string>)
    requires fold("") == ""
    ensures CacheKey(fold, hash, None, d, s) == CacheKey(fold, hash, Some(""), d, s)
    ensures CacheKey(fold, hash, q, None, s) == CacheKey(fold, hash, q, Some(""), s)
    ensures CacheKey(fold, hash, q, d, None) == CacheKey(fold, hash, q, d, Some(""))
    ensures "v1" + [UNIT] <= Payload(fold, q, d, s)
  {
    PayloadParts(fold, q, d, s);
    NormalizedAlikeIff(fold, None, Some(""));
  }

  /** A key stands for one dialect, one schema signature and one sequence of words, when signatures hold no
      separator; splitting has removed it from the query, and the dialect may hold any. */
  lemma KeyIdentifies(fold: string -> string, hash: string -> string,
                      q: Option<string>, d: Option<string>, s: Option<string>,
                      q': Option<string>, d': Option<string>, s': Option<string>)
    requires forall a, b :: hash(a) == hash(b) ==> a == b
    requires UNIT !in OrEmpty(s) && UNIT !in OrEmpty(s')
    ensures CacheKey(fold, hash, q, d, s) == CacheKey(fold, hash, q', d', s') <==>
            OrEmpty(d) == OrEmpty(d') && OrEmpty(s) == OrEmpty(s') && FoldedWords(fold, q) == FoldedWords(fold, q')
  {
    NormalizedAlikeIff(fold, q, q');
    NormalizedAlikeIff(fold, q', q);
    PayloadParts(fold, q, d, s);
    PayloadParts(fold, q', d', s');
    if CacheKey(fold, hash, q, d, s) == CacheKey(fold, hash, q', d', s') {
      hide NormalizeQuery, Payload;
      var head, head' := VERSION + [UNIT] + OrEmpty(d), VERSION + [UNIT] + OrEmpty(d');
      TailIsReadBack(UNIT, head + [UNIT] + OrEmpty(s), NormalizeQuery(fold, q),
                     head' + [UNIT] + OrEmpty(s'), NormalizeQuery(fold, q'));
      TailIsReadBack(UNIT, head, OrEmpty(s), head', OrEmpty(s'));
      assert head[|VERSION| + 1..] == OrEmpty(d) && head'[|VERSION| + 1..] == OrEmpty(d');
    }
  }

  predicate EndsWith(s: string, end: string) {
    |end| <= |s| && s[|s| - |end|..] == end
  }

  /** Exactly when two different signatures can share a key: when one ends with a separator and the other. */
  lemma SignaturesCollideIff(fold: string -> string, q: Option<string>, s: string, s': string)
    requires s != s'
    ensures (exists d, d' :: Payload(fold, q, Some(d), Some(s)) == Payload(fold, q, Some(d'), Some(s')))
            <==> EndsWith(s, [UNIT] + s') || EndsWith(s', [UNIT] + s)
  {
    if EndsWith(s, [UNIT] + s') {
      Collision(fold, q, s[..|s| - |s'| - 1], s, s');
    }
    if EndsWith(s', [UNIT] + s) {
      Collision(fold, q, s'[..|s'| - |s| - 1], s', s);
    }
    if d, d' :| Payload(fold, q, Some(d), Some(s)) == Payload(fold, q, Some(d'), Some(s')) {
      PayloadParts(fold, q, Some(d), Some(s));
      PayloadParts(fold, q, Some(d'), Some(s'));
      NormalizedAlikeIff(fold, q, q);
      hide NormalizeQuery, Payload;
      var head, head' := VERSION + [UNIT] + d, VERSION + [UNIT] + d';
      var n := NormalizeQuery(fold, q);
      TailIsReadBack(UNIT, head + [UNIT] + s, n, head' + [UNIT] + s', n);
      if |s| <= |s'| {
        SuffixesOfOne(head, s, head', s');
      } else {
        SuffixesOfOne(head', s', head, s);
      }
    }
  }

  lemma SuffixesOfOne(head: string, s: string, head': string, s': string)
    requires head + [UNIT] + s == head' + [UNIT] + s' && |s| <= |s'|
    ensures s == s' || EndsWith(s', [UNIT] + s)
  {
    var all := head + [UNIT] + s;
    assert s' == all[|all| - |s'|..];
    if |s| < |s'| {
      assert [UNIT] + s == all[|all| - |s| - 1..] == s'[|s'| - |s| - 1..];
    } else {
      assert s == all[|all| - |s|..];
    }
  }

  lemma Collision(fold: string -> string, q: Option<string>, x: string, long: string, short: string)
    requires long == x + ([UNIT] + short)
    ensures Payload(fold, q, Some(""), Some(long)) == Payload(fold, q, Some([UNIT] + x), Some(short))
  {
    PayloadParts(fold, q, Some(""), Some(long));
    PayloadParts(fold, q, Some([UNIT] + x), Some(short));
    assert VERSION + [UNIT] + "" + [UNIT] + long == VERSION + [UNIT] + ([UNIT] + x) + [UNIT] + short;
  }
}
