/** Incremental re-embedding of a schema, against a full rebuild of its index
    (backend/app/schema_reindex.py, schema_embedding.py, schema/reindex_planner.py). */
module Reindex {
  import opened Wrappers
  import opened Separators

  type Vector = seq<real>

  /** Columns are name and type; a type may be empty. */
  datatype Table = Table(columns: seq<(string, string)>, references: seq<string>)

  type Tables = map<string, Table>

  /** The embedding service and the hash. */
  datatype Services = Services(embed: (string, string) -> Vector, hash: string -> string)

  /** The stored embeddings: the vectors and the fingerprint of every table. */
  datatype Embeddings = Embeddings(model: string, vectors: map<string, Vector>, fingerprints: map<string, string>)

  const VERSION := "v1"
  const TABLE := "Table: "
  const BATCH_SIZE := 50

  // ----- Text and fingerprint.

  function ColumnTexts(columns: seq<(string, string)>): seq<string> {
    if columns == [] then []
    else
      var (name, kind) := columns[0];
      [if kind == "" then name else name + " (" + kind + ")"] + ColumnTexts(columns[1..])
  }

  function ReferenceTexts(references: seq<string>): seq<string> {
    if references == [] then [] else ["references " + references[0]] + ReferenceTexts(references[1..])
  }

  function Text(name: string, t: Table): string {
    TABLE + name + " | Columns: " + Join(", ", ColumnTexts(t.columns))
    + if t.references == [] then "" else " | Relations: " + Join(", ", ReferenceTexts(t.references))
  }

  function Payload(model: string, text: string): string {
    VERSION + [UNIT] + (model + [UNIT] + text)
  }

  function Fingerprint(services: Services, model: string, text: string): string {
    services.hash(Payload(model, text))
  }

  ghost predicate CollisionFree(services: Services) {
    forall a, b :: services.hash(a) == services.hash(b) ==> a == b
  }

  /** The model name begins like a payload of the other model: name, separator, text of a table. */
  predicate Extends(model: string, other: string) {
    other + [UNIT] + TABLE <= model
  }

  predicate Apart(m: string, m': string) {
    !Extends(m, m') && !Extends(m', m)
  }

  lemma LongerExtends(m: string, x: string, m': string, x': string)
    requires TABLE <= x && TABLE <= x' && m + [UNIT] + x == m' + [UNIT] + x' && |m| < |m'|
    ensures Extends(m', m)
  {
    var p := m + [UNIT] + x;
    assert p == m' + [UNIT] + x';
    assert p[|m|] == UNIT && p[|m'|] == UNIT;
    assert p[|m| + 1..] == x && x[|m'| - |m| - 1] == UNIT;
    assert UNIT !in TABLE;
    assert |m'| - |m| - 1 >= |TABLE|;
    assert m' == p[..|m'|] && p[..|m| + 1 + |TABLE|] == m + [UNIT] + TABLE;
  }

  lemma TextBegins(n: string, t: Table)
    ensures TABLE <= Text(n, t)
  {
  }

  /** Equal fingerprints mean equal model and equal text, when neither model name extends the other. */
  lemma FingerprintIdentifies(services: Services, m: string, n: string, t: Table, m': string, n': string, t': Table)
    requires CollisionFree(services) && Apart(m, m')
    ensures Fingerprint(services, m, Text(n, t)) == Fingerprint(services, m', Text(n', t')) <==>
              m == m' && Text(n, t) == Text(n', t')
  {
    var x, x' := Text(n, t), Text(n', t');
    TextBegins(n, t);
    TextBegins(n', t');
    hide Text, Extends;
    if Fingerprint(services, m, x) == Fingerprint(services, m', x') {
      var p, p' := m + [UNIT] + x, m' + [UNIT] + x';
      assert Payload(m, x)[|VERSION| + 1..] == p && Payload(m', x')[|VERSION| + 1..] == p';
      if |m| < |m'| {
        LongerExtends(m, x, m', x');
      } else if |m'| < |m| {
        LongerExtends(m', x', m, x);
      }
      assert m == p[..|m|] && m' == p'[..|m'|] && x == p[|m| + 1..] && x' == p'[|m'| + 1..];
    }
  }

  /** Some tables share a fingerprint under two models exactly when one model name extends the other. */
  lemma ModelsCollideIff(services: Services, m: string, m': string)
    requires CollisionFree(services) && m != m'
    ensures (exists n, t, n', t' :: Fingerprint(services, m, Text(n, t)) == Fingerprint(services, m', Text(n', t')))
            <==> Extends(m, m') || Extends(m', m)
  {
    if Extends(m, m') {
      ExtendedCollides(services, m', m);
    } else if Extends(m', m) {
      ExtendedCollides(services, m, m');
    } else {
      forall n, t, n', t'
        ensures Fingerprint(services, m, Text(n, t)) != Fingerprint(services, m', Text(n', t'))
      {
        FingerprintIdentifies(services, m, n, t, m', n', t');
      }
    }
  }

  lemma ExtendedCollides(services: Services, m: string, m': string)
    requires Extends(m', m)
    ensures exists n, t, n', t' :: Fingerprint(services, m, Text(n, t)) == Fingerprint(services, m', Text(n', t'))
  {
    var rest, none := m'[|m| + 1 + |TABLE|..], Table([], []);
    var n := rest + [UNIT] + TABLE;
    assert m' == m + [UNIT] + TABLE + rest;
    assert Text(n, none) == TABLE + rest + [UNIT] + Text("", none);
    assert Payload(m, Text(n, none)) == Payload(m', Text("", none));
    assert Fingerprint(services, m, Text(n, none)) == Fingerprint(services, m', Text("", none));
  }

  // ----- What the text of a table tells apart.

  /** The three characters that structure a text do not occur. */
  predicate Clean(word: string) {
    ',' !in word && '(' !in word && '|' !in word
  }

  predicate CleanTable(t: Table) {
    (forall c | c in t.columns :: c.0 != "" && Clean(c.0) && Clean(c.1)) && forall r | r in t.references :: Clean(r)
  }

  function ColumnText(c: (string, string)): string {
    if c.1 == "" then c.0 else c.0 + " (" + c.1 + ")"
  }

  lemma {:induction false} ColumnTextsAre(columns: seq<(string, string)>)
    ensures |ColumnTexts(columns)| == |columns|
    ensures forall i | 0 <= i < |columns| :: ColumnTexts(columns)[i] == ColumnText(columns[i])
  {
    if columns != [] {
      ColumnTextsAre(columns[1..]);
    }
  }

  lemma {:induction false} ReferenceTextsAre(references: seq<string>)
    ensures |ReferenceTexts(references)| == |references|
    ensures forall i | 0 <= i < |references| :: ReferenceTexts(references)[i] == "references " + references[i]
  {
    if references != [] {
      ReferenceTextsAre(references[1..]);
    }
  }

  lemma ColumnIsReadBack(c: (string, string), c': (string, string))
    requires Clean(c.0) && Clean(c'.0) && Clean(c.1) && Clean(c'.1) && ColumnText(c) == ColumnText(c')
    ensures c == c'
  {
    if c.1 != "" {
      KindIsReadBack(c);
    }
    if c'.1 != "" {
      KindIsReadBack(c');
    }
    if c.1 != "" && c'.1 != "" {
      HeadIsReadBack('(', c.0 + " ", c.1 + ")", c'.0 + " ", c'.1 + ")");
      assert c.0 == (c.0 + " ")[..|c.0|] && c'.0 == (c'.0 + " ")[..|c'.0|];
      assert c.1 == (c.1 + ")")[..|c.1|] && c'.1 == (c'.1 + ")")[..|c'.1|];
    }
  }

  lemma KindIsReadBack(c: (string, string))
    requires c.1 != ""
    ensures ColumnText(c) == c.0 + " " + ['('] + (c.1 + ")") && '(' in ColumnText(c)
  {
    assert " (" == " " + ['('];
    assert ColumnText(c)[|c.0| + 1] == '(';
  }

  lemma ColumnTextIsWord(c: (string, string))
    requires c.0 != "" && Clean(c.0) && Clean(c.1)
    ensures ColumnText(c) != "" && ',' !in ColumnText(c) && '|' !in ColumnText(c)
  {
    assert ',' !in " (" && '|' !in " (" && ',' !in ")" && '|' !in ")";
  }

  lemma ColumnsAreReadBack(a: seq<(string, string)>, b: seq<(string, string)>)
    requires forall c | c in a || c in b :: c.0 != "" && Clean(c.0) && Clean(c.1)
    requires Join(", ", ColumnTexts(a)) == Join(", ", ColumnTexts(b))
    ensures a == b
  {
    hide Clean, ColumnText, ColumnTexts, Join;
    ColumnTextsAre(a);
    ColumnTextsAre(b);
    forall w | w in ColumnTexts(a) || w in ColumnTexts(b) ensures w != "" && ',' !in w {
      if w in ColumnTexts(a) {
        var i :| 0 <= i < |a| && ColumnTexts(a)[i] == w;
        ColumnTextIsWord(a[i]);
      } else {
        var i :| 0 <= i < |b| && ColumnTexts(b)[i] == w;
        ColumnTextIsWord(b[i]);
      }
    }
    WordsAreReadBack(", ", ColumnTexts(a), ColumnTexts(b));
    forall i | 0 <= i < |a| ensures a[i] == b[i] {
      ColumnIsReadBack(a[i], b[i]);
    }
  }

  lemma ReferenceIsWord(r: string)
    requires Clean(r)
    ensures "references " + r != "" && ',' !in "references " + r
  {
    assert |"references "| == 11 && ',' !in "references ";
  }

  lemma ReferencesAreReadBack(a: seq<string>, b: seq<string>)
    requires forall r | r in a || r in b :: Clean(r)
    requires Join(", ", ReferenceTexts(a)) == Join(", ", ReferenceTexts(b))
    ensures a == b
  {
    hide ReferenceTexts, Join;
    ReferenceTextsAre(a);
    ReferenceTextsAre(b);
    forall w | w in ReferenceTexts(a) || w in ReferenceTexts(b) ensures w != "" && ',' !in w {
      if w in ReferenceTexts(a) {
        var i :| 0 <= i < |a| && ReferenceTexts(a)[i] == w;
        ReferenceIsWord(a[i]);
      } else {
        var i :| 0 <= i < |b| && ReferenceTexts(b)[i] == w;
        ReferenceIsWord(b[i]);
      }
    }
    WordsAreReadBack(", ", ReferenceTexts(a), ReferenceTexts(b));
    forall i | 0 <= i < |a| ensures a[i] == b[i] {
      assert a[i] == ("references " + a[i])[11..] && b[i] == ("references " + b[i])[11..];
    }
  }

  lemma {:induction false} NoBarInJoin(words: seq<string>)
    requires forall w | w in words :: '|' !in w
    ensures '|' !in Join(", ", words)
  {
    if words != [] {
      assert words[0] in words && '|' !in ", ";
      NoBarInJoin(words[1..]);
    }
  }

  lemma NoBarInColumns(columns: seq<(string, string)>)
    requires forall c | c in columns :: c.0 != "" && Clean(c.0) && Clean(c.1)
    ensures '|' !in Join(", ", ColumnTexts(columns))
  {
    hide Clean, ColumnText, ColumnTexts, Join;
    ColumnTextsAre(columns);
    forall w | w in ColumnTexts(columns) ensures '|' !in w {
      var i :| 0 <= i < |columns| && ColumnTexts(columns)[i] == w;
      ColumnTextIsWord(columns[i]);
    }
    NoBarInJoin(ColumnTexts(columns));
  }

  /** What follows the columns in a text. */
  function Relations(t: Table): string {
    if t.references == [] then "" else " | Relations: " + Join(", ", ReferenceTexts(t.references))
  }

  lemma TextParts(n: string, t: Table)
    ensures Text(n, t) == "Table: " + n + " | Columns: " + (Join(", ", ColumnTexts(t.columns)) + Relations(t))
  {
  }

  /** Under one name, tables have the same text exactly when they are the same, unless names, types or references hold
      characters that structure the text. */
  lemma TextTellsApart(n: string, t: Table, t': Table)
    requires CleanTable(t) && CleanTable(t')
    ensures Text(n, t) == Text(n, t') <==> t == t'
  {
    hide Clean, ColumnTexts, ReferenceTexts, Join, Text;
    TextParts(n, t);
    TextParts(n, t');
    if Text(n, t) == Text(n, t') {
      var head := "Table: " + n + " | Columns: ";
      var c, c' := Join(", ", ColumnTexts(t.columns)), Join(", ", ColumnTexts(t'.columns));
      assert c + Relations(t) == Text(n, t)[|head|..] && c' + Relations(t') == Text(n, t')[|head|..];
      NoBarInColumns(t.columns);
      NoBarInColumns(t'.columns);
      RelationsSplit(c, t, c', t');
      ColumnsAreReadBack(t.columns, t'.columns);
      ReferencesAreReadBack(t.references, t'.references);
    }
  }

  lemma RelationsBegin(c: string, t: Table)
    ensures t.references == [] ==> c + Relations(t) == c
    ensures t.references != [] ==>
              && c + Relations(t) == c + " " + ['|'] + (" Relations: " + Join(", ", ReferenceTexts(t.references)))
              && '|' in c + Relations(t)
  {
    hide Join, ReferenceTexts;
    if t.references != [] {
      assert " | Relations: " == " " + ['|'] + " Relations: ";
      assert (c + Relations(t))[|c| + 1] == '|';
    }
  }

  lemma RelationsSplit(c: string, t: Table, c': string, t': Table)
    requires '|' !in c && '|' !in c' && c + Relations(t) == c' + Relations(t')
    ensures c == c' && (t.references == [] <==> t'.references == [])
    ensures Join(", ", ReferenceTexts(t.references)) == Join(", ", ReferenceTexts(t'.references))
  {
    hide Join, ReferenceTexts, Relations;
    RelationsBegin(c, t);
    RelationsBegin(c', t');
    if t.references != [] && t'.references != [] {
      var r, r' := Join(", ", ReferenceTexts(t.references)), Join(", ", ReferenceTexts(t'.references));
      HeadIsReadBack('|', c + " ", " Relations: " + r, c' + " ", " Relations: " + r');
      SuffixesAgree(c, c', " ");
      PrefixesAgree(" Relations: ", r, r');
    }
  }

  lemma SuffixesAgree(a: string, b: string, suffix: string)
    requires a + suffix == b + suffix
    ensures a == b
  {
    assert a == (a + suffix)[..|a|] && b == (b + suffix)[..|b|];
  }

  lemma PrefixesAgree(prefix: string, a: string, b: string)
    requires prefix + a == prefix + b
    ensures a == b
  {
    assert a == (prefix + a)[|prefix|..] && b == (prefix + b)[|prefix|..];
  }

  lemma {:induction false} JoinGrows(sep: string, words: seq<string>, last: string)
    ensures |Join(sep, words + [last])| == |Join(sep, words)| + (if words == [] then 0 else |sep|) + |last|
  {
    if words != [] {
      JoinGrows(sep, words[1..], last);
      assert (words + [last])[1..] == words[1..] + [last];
    }
  }

  /** Whatever the characters, another column or reference at the end changes the text. */
  lemma AppendingShows(n: string, t: Table, c: (string, string), r: string)
    ensures c.0 != "" ==> Text(n, t.(columns := t.columns + [c])) != Text(n, t)
    ensures Text(n, t.(references := t.references + [r])) != Text(n, t)
  {
    hide Join, ColumnTexts, ReferenceTexts, Text;
    TextParts(n, t);
    TextParts(n, t.(columns := t.columns + [c]));
    TextParts(n, t.(references := t.references + [r]));
    ColumnTextsAre(t.columns);
    ColumnTextsAre(t.columns + [c]);
    assert ColumnTexts(t.columns + [c]) == ColumnTexts(t.columns) + [ColumnText(c)];
    JoinGrows(", ", ColumnTexts(t.columns), ColumnText(c));
    ReferenceTextsAre(t.references);
    ReferenceTextsAre(t.references + [r]);
    assert ReferenceTexts(t.references + [r]) == ReferenceTexts(t.references) + ["references " + r];
    JoinGrows(", ", ReferenceTexts(t.references), "references " + r);
    assert |"references "| == 11 && |", "| == 2 && |" | Relations: "| == 14;
  }

  /** Characters that structure the text can hide an edit: one column "a, b" reads like two, and one of type "k" like a
      column without a type named "a (k)". */
  lemma HiddenEdit(n: string, a: string, b: string)
    ensures Text(n, Table([(a + ", " + b, "")], [])) == Text(n, Table([(a, ""), (b, "")], []))
    ensures b != "" ==> Text(n, Table([(a + " (" + b + ")", "")], [])) == Text(n, Table([(a, b)], []))
  {
    hide ColumnTexts;
    ColumnTextsAre([(a, ""), (b, "")]);
    ColumnTextsAre([(a + ", " + b, "")]);
    ColumnTextsAre([(a + " (" + b + ")", "")]);
    ColumnTextsAre([(a, b)]);
    assert ColumnTexts([(a, ""), (b, "")]) == [a, b] && [a, b][1..] == [b];
    assert ColumnTexts([(a + ", " + b, "")]) == [a + ", " + b];
    assert Join(", ", [a, b]) == a + ", " + b;
    assert b != "" ==> ColumnTexts([(a + " (" + b + ")", "")]) == ColumnTexts([(a, b)]);
  }

  // ----- Specifications.

  /** The n-th batch (counting from 0) is the one that fails, if it is sent at all. */
  predicate Fails(names: nat, outage: Option<nat>) {
    outage.Some? && BATCH_SIZE * outage.value < names
  }

  function IndexOf(services: Services, tables: Tables, model: string, names: set<string>): map<string, Vector>
    requires names <= tables.Keys
  {
    map n | n in names :: services.embed(model, Text(n, tables[n]))
  }

  /** The index a full build gives. */
  function FullIndex(services: Services, tables: Tables, model: string): map<string, Vector> {
    IndexOf(services, tables, model, tables.Keys)
  }

  function Fingerprints(services: Services, tables: Tables, model: string): map<string, string> {
    map n | n in tables :: Fingerprint(services, model, Text(n, tables[n]))
  }

  datatype Call = Call(tables: Tables, model: string, force: bool, outage: Option<nat>)

  predicate Unchanged(services: Services, stored: Option<Embeddings>, c: Call, n: string)
    requires n in c.tables
  {
    && !c.force && stored.Some? && n in stored.value.fingerprints
    && stored.value.fingerprints[n] == Fingerprint(services, c.model, Text(n, c.tables[n]))
  }

  predicate Reusable(services: Services, stored: Option<Embeddings>, c: Call, n: string)
    requires n in c.tables
  {
    Unchanged(services, stored, c, n) && n in stored.value.vectors
  }

  function Stale(services: Services, stored: Option<Embeddings>, c: Call): set<string> {
    set n | n in c.tables && !Reusable(services, stored, c, n)
  }

  function Kept(services: Services, stored: Option<Embeddings>, c: Call): map<string, Vector> {
    map n | n in c.tables && Reusable(services, stored, c, n) :: stored.value.vectors[n]
  }

  function Reindexed(services: Services, stored: Option<Embeddings>, c: Call): Embeddings {
    var stale := Stale(services, stored, c);
    var built := if Fails(|stale|, c.outage) then map[] else IndexOf(services, c.tables, c.model, stale);
    Embeddings(c.model, Kept(services, stored, c) + built, Fingerprints(services, c.tables, c.model))
  }

  function Evicted(stored: Option<Embeddings>, c: Call): set<string> {
    if c.force || stored.None? then {} else stored.value.fingerprints.Keys - c.tables.Keys
  }

  // ----- The methods.

  function EmbedAll(services: Services, model: string, texts: seq<string>): (vs: seq<Vector>)
    ensures |vs| == |texts| && forall i | 0 <= i < |vs| :: vs[i] == services.embed(model, texts[i])
  {
    if texts == [] then []
    else EmbedAll(services, model, texts[..|texts| - 1]) + [services.embed(model, texts[|texts| - 1])]
  }

  function Elements(names: seq<string>): set<string> {
    set n | n in names
  }

  predicate Distinct(names: seq<string>) {
    forall i, j | 0 <= i < j < |names| :: names[i] != names[j]
  }

  /** None when the service fails: an exception ends the loop. */
  method EmbedBatches(services: Services, model: string, texts: seq<string>, outage: Option<nat>)
    returns (all: Option<seq<Vector>>)
    ensures all.None? <==> Fails(|texts|, outage)
    ensures all.Some? ==>
              |all.value| == |texts| && forall i | 0 <= i < |texts| :: all.value[i] == services.embed(model, texts[i])
  {
    var vectors, batch := [], 0;
    while BATCH_SIZE * batch < |texts|
      invariant |vectors| == if BATCH_SIZE * batch < |texts| then BATCH_SIZE * batch else |texts|
      invariant forall i | 0 <= i < |vectors| :: vectors[i] == services.embed(model, texts[i])
      invariant outage.Some? ==> batch <= outage.value || |texts| <= BATCH_SIZE * outage.value
      decreases |texts| - BATCH_SIZE * batch
    {
      if outage == Some(batch) {
        return None;
      }
      var start := BATCH_SIZE * batch;
      var end := if start + BATCH_SIZE < |texts| then start + BATCH_SIZE else |texts|;
      vectors := vectors + EmbedAll(services, model, texts[start..end]);
      batch := batch + 1;
    }
    all := Some(vectors);
  }

  /** A failing batch empties the whole index. */
  method BuildIndex(services: Services, tables: Tables, model: string, names: seq<string>, outage: Option<nat>)
    returns (index: map<string, Vector>)
    requires Distinct(names) && Elements(names) <= tables.Keys
    ensures index == if Fails(|names|, outage) then map[] else IndexOf(services, tables, model, Elements(names))
  {
    hide Text;
    index := map[];
    if names == [] {
      return;
    }
    var texts, t := [], 0;
    while t < |names|
      invariant 0 <= t <= |names| && |texts| == t
      invariant forall i | 0 <= i < t :: texts[i] == Text(names[i], tables[names[i]])
    {
      texts := texts + [Text(names[t], tables[names[t]])];
      t := t + 1;
    }
    var all := EmbedBatches(services, model, texts, outage);
    if all.None? {
      return;
    }
    var k := 0;
    while k < |names|
      invariant 0 <= k <= |names|
      invariant index.Keys == Elements(names[..k])
      invariant forall i | 0 <= i < k :: index[names[i]] == all.value[i]
    {
      assert names[..k + 1] == names[..k] + [names[k]];
      index := index[names[k] := all.value[k]];
      k := k + 1;
    }
    assert names[..k] == names;
  }

  /** Keeps what has its recorded fingerprint, embeds the rest, drops what is gone. */
  method PlanReindex(services: Services, recorded: map<string, string>, tables: Tables, model: string)
    returns (toEmbed: seq<string>, toKeep: seq<string>, toDelete: set<string>)
    ensures toDelete == recorded.Keys - tables.Keys
    ensures Distinct(toEmbed) && Distinct(toKeep)
    ensures forall n :: n in toKeep <==>
              n in tables && n in recorded && recorded[n] == Fingerprint(services, model, Text(n, tables[n]))
    ensures forall n :: n in toEmbed <==> n in tables && n !in toKeep
  {
    toEmbed, toKeep := [], [];
    var todo := tables.Keys;
    while todo != {}
      invariant todo <= tables.Keys && Distinct(toEmbed) && Distinct(toKeep)
      invariant forall n :: n in toKeep <==>
                  (n in tables && n !in todo && n in recorded
                   && recorded[n] == Fingerprint(services, model, Text(n, tables[n])))
      invariant forall n :: n in toEmbed <==> n in tables && n !in todo && n !in toKeep
    {
      hide Fingerprint, Text;
      var n :| n in todo;
      if n in recorded && recorded[n] == Fingerprint(services, model, Text(n, tables[n])) {
        toKeep := toKeep + [n];
      } else {
        toEmbed := toEmbed + [n];
      }
      todo := todo - {n};
    }
    toDelete := recorded.Keys - tables.Keys;
  }

  lemma {:induction false} DistinctCount(names: seq<string>)
    requires Distinct(names)
    ensures |Elements(names)| == |names|
  {
    if names != [] {
      var rest, last := names[..|names| - 1], names[|names| - 1];
      DistinctCount(rest);
      assert Elements(names) == Elements(rest) + {last};
    }
  }

  lemma DistinctConcat(a: seq<string>, b: seq<string>)
    requires Distinct(a) && Distinct(b) && forall n | n in a :: n !in b
    ensures Distinct(a + b)
  {
    forall i, j | 0 <= i < j < |a + b| ensures (a + b)[i] != (a + b)[j] {
      if i < |a| <= j {
        assert a[i] in a && b[j - |a|] in b;
      }
    }
  }

  /** The names of a plan split by whether a vector is held for them. */
  method SplitKept(toKeep: seq<string>, held: map<string, Vector>)
    returns (withVector: seq<string>, without: seq<string>)
    requires Distinct(toKeep)
    ensures Distinct(withVector) && Distinct(without)
    ensures forall n :: n in withVector <==> n in toKeep && n in held
    ensures forall n :: n in without <==> n in toKeep && n !in held
  {
    withVector, without := [], [];
    var i := 0;
    while i < |toKeep|
      invariant 0 <= i <= |toKeep| && Distinct(withVector) && Distinct(without)
      invariant forall n :: n in withVector <==> n in toKeep[..i] && n in held
      invariant forall n :: n in without <==> n in toKeep[..i] && n !in held
    {
      assert toKeep[..i + 1] == toKeep[..i] + [toKeep[i]];
      assert toKeep[i] !in toKeep[..i];
      if toKeep[i] in held {
        withVector := withVector + [toKeep[i]];
      } else {
        without := without + [toKeep[i]];
      }
      i := i + 1;
    }
    assert toKeep[..i] == toKeep;
  }

  function Recorded(stored: Option<Embeddings>, c: Call): map<string, string> {
    if c.force || stored.None? then map[] else stored.value.fingerprints
  }

  function Held(stored: Option<Embeddings>): map<string, Vector> {
    if stored.None? then map[] else stored.value.vectors
  }

  lemma PlanIsExact(services: Services, stored: Option<Embeddings>, c: Call, names: seq<string>, kept: seq<string>)
    requires forall n :: n in kept <==>
               (n in c.tables && n in Recorded(stored, c) && n in Held(stored)
                && Recorded(stored, c)[n] == Fingerprint(services, c.model, Text(n, c.tables[n])))
    requires forall n :: n in names <==> n in c.tables && n !in kept
    ensures Stale(services, stored, c) == Elements(names)
    ensures Kept(services, stored, c) == map n | n in kept :: Held(stored)[n]
  {
    hide Text, Fingerprint;
  }

  lemma SelectionIsExact(services: Services, stored: Option<Embeddings>, c: Call, toEmbed: seq<string>,
                         toKeep: seq<string>, withVector: seq<string>, without: seq<string>)
    requires Distinct(toEmbed) && Distinct(withVector) && Distinct(without)
    requires forall n :: n in toKeep <==>
               (n in c.tables && n in Recorded(stored, c)
                && Recorded(stored, c)[n] == Fingerprint(services, c.model, Text(n, c.tables[n])))
    requires forall n :: n in toEmbed <==> n in c.tables && n !in toKeep
    requires forall n :: n in withVector <==> n in toKeep && n in Held(stored)
    requires forall n :: n in without <==> n in toKeep && n !in Held(stored)
    ensures Distinct(toEmbed + without) && Stale(services, stored, c) == Elements(toEmbed + without)
    ensures |toEmbed + without| == |Stale(services, stored, c)|
    ensures Kept(services, stored, c) == map n | n in withVector :: Held(stored)[n]
    ensures |withVector| == |Kept(services, stored, c)|
  {
    hide Text, Fingerprint;
    DistinctConcat(toEmbed, without);
    DistinctCount(toEmbed + without);
    DistinctCount(withVector);
    PlanIsExact(services, stored, c, toEmbed + without, withVector);
    assert Kept(services, stored, c).Keys == Elements(withVector);
  }

  method ReindexEmbeddings(services: Services, stored: Option<Embeddings>, c: Call)
    returns (e: Embeddings, embedded: set<string>, kept: nat, deleted: set<string>)
    ensures e == Reindexed(services, stored, c)
    ensures embedded == Stale(services, stored, c) && kept == |Kept(services, stored, c)|
    ensures deleted == Evicted(stored, c)
  {
    hide Text, Fingerprint, Fingerprints, Stale, Kept, Distinct, IndexOf;
    var held := Held(stored);
    var toEmbed, toKeep, toDelete := PlanReindex(services, Recorded(stored, c), c.tables, c.model);
    var withVector, without := SplitKept(toKeep, held);
    SelectionIsExact(services, stored, c, toEmbed, toKeep, withVector, without);
    var names := toEmbed + without;
    var merged := map n | n in withVector :: held[n];
    embedded, kept, deleted := Elements(names), |withVector|, toDelete;
    e := MergeVectors(services, c, names, merged);
  }

  method MergeVectors(services: Services, c: Call, names: seq<string>, merged: map<string, Vector>)
    returns (e: Embeddings)
    requires Distinct(names) && Elements(names) <= c.tables.Keys
    ensures e == Embeddings(c.model,
                            merged + (if Fails(|names|, c.outage) then map[]
                                      else IndexOf(services, c.tables, c.model, Elements(names))),
                            Fingerprints(services, c.tables, c.model))
  {
    var vectors := merged;
    if names != [] {
      var built := BuildIndex(services, c.tables, c.model, names, c.outage);
      vectors := vectors + built;
    }
    e := Embeddings(c.model, vectors, Fingerprints(services, c.tables, c.model));
  }

  // ----- Over any history of calls.

  /** A call starts from nothing, or from the result of any earlier one: a cache write may have failed. */
  datatype Event = Event(call: Call, from: Option<nat>)

  ghost predicate IsHistory(services: Services, events: seq<Event>, results: seq<Embeddings>) {
    && |results| == |events|
    && forall i | 0 <= i < |events| ::
         && (events[i].from.Some? ==> events[i].from.value < i)
         && results[i] == Reindexed(services, StoredFor(events, results, i), events[i].call)
  }

  function StoredFor(events: seq<Event>, results: seq<Embeddings>, i: nat): Option<Embeddings>
    requires i < |events| == |results| && (events[i].from.Some? ==> events[i].from.value < i)
  {
    if events[i].from.None? then None else Some(results[events[i].from.value])
  }

  /** No model name begins like a payload of another, as none does that holds no separator. */
  predicate ModelsApart(events: seq<Event>) {
    forall i, j | 0 <= i < |events| && 0 <= j < |events| :: Apart(events[i].call.model, events[j].call.model)
  }

  /** Only current tables hold a vector, and it is the one a full build would give. */
  ghost predicate Faithful(services: Services, e: Embeddings, c: Call) {
    && e.model == c.model && e.fingerprints == Fingerprints(services, c.tables, c.model)
    && forall n | n in e.vectors :: n in c.tables && e.vectors[n] == FullIndex(services, c.tables, c.model)[n]
  }

  lemma StepIsFaithful(services: Services, stored: Option<Embeddings>, before: Call, c: Call)
    requires CollisionFree(services)
    requires stored.Some? ==> Faithful(services, stored.value, before) && Apart(before.model, c.model)
    ensures Faithful(services, Reindexed(services, stored, c), c)
  {
    hide Text, Fingerprint;
    var e := Reindexed(services, stored, c);
    forall n | n in e.vectors
      ensures n in c.tables && e.vectors[n] == FullIndex(services, c.tables, c.model)[n]
    {
      if n in c.tables && Reusable(services, stored, c, n) {
        FingerprintIdentifies(services, before.model, n, before.tables[n], c.model, n, c.tables[n]);
      }
    }
  }

  /** Whatever schema edits, model changes, forced calls, failures and lost caches came before, every vector held is
      the one a full build would give now. */
  lemma {:induction false} AlwaysFaithful(services: Services, events: seq<Event>, results: seq<Embeddings>, i: nat)
    requires IsHistory(services, events, results) && CollisionFree(services) && i < |events|
    requires ModelsApart(events)
    ensures Faithful(services, results[i], events[i].call)
    decreases i
  {
    hide Reindexed, Faithful;
    var e := events[i];
    if e.from.Some? {
      AlwaysFaithful(services, events, results, e.from.value);
      StepIsFaithful(services, Some(results[e.from.value]), events[e.from.value].call, e.call);
    } else {
      StepIsFaithful(services, None, e.call, e.call);
    }
  }

  /** A call whose batches all succeed ends with exactly the full index, and otherwise with exactly the part that
      was reusable. */
  lemma EqualsFullBuild(services: Services, events: seq<Event>, results: seq<Embeddings>, i: nat)
    requires IsHistory(services, events, results) && CollisionFree(services) && i < |events|
    requires ModelsApart(events)
    ensures var c := events[i].call;
            var stale := Stale(services, StoredFor(events, results, i), c);
            results[i].vectors ==
              if Fails(|stale|, c.outage) then FullIndex(services, c.tables, c.model) - stale
              else FullIndex(services, c.tables, c.model)
  {
    hide Faithful, Reindexed, Stale, FullIndex;
    AlwaysFaithful(services, events, results, i);
    FaithfulIsFull(services, StoredFor(events, results, i), events[i].call);
  }

  lemma FaithfulIsFull(services: Services, stored: Option<Embeddings>, c: Call)
    requires Faithful(services, Reindexed(services, stored, c), c)
    ensures var stale, full := Stale(services, stored, c), FullIndex(services, c.tables, c.model);
            Reindexed(services, stored, c).vectors == if Fails(|stale|, c.outage) then full - stale else full
  {
    hide Text, Fingerprint, Fingerprints;
    var stale, full := Stale(services, stored, c), FullIndex(services, c.tables, c.model);
    var vectors := Reindexed(services, stored, c).vectors;
    assert vectors.Keys == if Fails(|stale|, c.outage) then full.Keys - stale else full.Keys;
  }

  /** A table is embedded again exactly when the call is forced, nothing was stored for it, or its text or the model
      changed. */
  lemma EmbeddedIff(services: Services, events: seq<Event>, results: seq<Embeddings>, i: nat, n: string)
    requires IsHistory(services, events, results) && CollisionFree(services) && i < |events|
    requires ModelsApart(events)
    requires n in events[i].call.tables
    ensures var c, stored := events[i].call, StoredFor(events, results, i);
            n !in Stale(services, stored, c) <==>
              && !c.force && stored.Some? && n in stored.value.vectors
              && var before := events[events[i].from.value].call;
                 before.model == c.model && Text(n, before.tables[n]) == Text(n, c.tables[n])
  {
    var e, stored := events[i], StoredFor(events, results, i);
    if stored.Some? {
      var before := events[e.from.value].call;
      AlwaysFaithful(services, events, results, e.from.value);
      if n in before.tables {
        FingerprintIdentifies(services, before.model, n, before.tables[n], e.call.model, n, e.call.tables[n]);
      }
    }
  }

  /** A table is kept exactly when the call is unforced, a vector is held and neither the model nor the table changed,
      in columns, types or references, unless their names hold characters that structure the text. */
  lemma EditedIsEmbedded(services: Services, events: seq<Event>, results: seq<Embeddings>, i: nat, n: string)
    requires IsHistory(services, events, results) && CollisionFree(services) && i < |events|
    requires ModelsApart(events)
    requires n in events[i].call.tables && CleanTable(events[i].call.tables[n])
    requires events[i].from.Some? ==>
               var before := events[events[i].from.value].call.tables;
               n in before ==> CleanTable(before[n])
    ensures var c, from := events[i].call, events[i].from;
            n !in Stale(services, StoredFor(events, results, i), c) <==>
              && !c.force && from.Some? && n in results[from.value].vectors && n in events[from.value].call.tables
              && events[from.value].call.model == c.model && events[from.value].call.tables[n] == c.tables[n]
  {
    hide CleanTable, Text;
    EmbeddedIff(services, events, results, i, n);
    if events[i].from.Some? {
      var k := events[i].from.value;
      AlwaysFaithful(services, events, results, k);
      if n in events[k].call.tables {
        TextTellsApart(n, events[k].call.tables[n], events[i].call.tables[n]);
      }
    }
  }

  // ----- The vector store: points of tables that are gone.

  /** What a visit does to the store around its call: whether the deletion of the evicted points works, whether the
      prune of all points of other tables works, which the callers run after every call, and which current tables are
      written in the end. A load that finds everything in the cache only writes. */
  datatype Effect = Effect(deleted: bool, pruned: bool, written: set<string>)

  /** The tables whose points a visit deletes because they are recorded and gone. */
  function Deleted(stored: Option<Embeddings>, c: Call, e: Effect): set<string> {
    if e.deleted then Evicted(stored, c) else {}
  }

  function StoreAfterVisit(points: set<string>, stored: Option<Embeddings>, c: Call, e: Effect): set<string> {
    var left := points - Deleted(stored, c, e);
    (if e.pruned then left * c.tables.Keys else left) + e.written
  }

  ghost predicate AreEffects(events: seq<Event>, effects: seq<Effect>) {
    |effects| == |events| && forall i | 0 <= i < |events| :: effects[i].written <= events[i].call.tables.Keys
  }

  /** The tables with a point after the first m visits. */
  ghost function PointsAfter(services: Services, events: seq<Event>, results: seq<Embeddings>, effects: seq<Effect>,
                             m: nat): set<string>
    requires IsHistory(services, events, results) && AreEffects(events, effects) && m <= |events|
  {
    if m == 0 then {}
    else
      StoreAfterVisit(PointsAfter(services, events, results, effects, m - 1), StoredFor(events, results, m - 1),
                      events[m - 1].call, effects[m - 1])
  }

  /** Visit k deletes the point of n: a call that is not forced starts from a result whose schema had n. */
  predicate Evicts(events: seq<Event>, effects: seq<Effect>, k: nat, n: string)
    requires k < |events| == |effects| && (events[k].from.Some? ==> events[k].from.value < k)
  {
    && effects[k].deleted && !events[k].call.force && events[k].from.Some?
    && n in events[events[k].from.value].call.tables && n !in events[k].call.tables
  }

  /** Visit k takes n out of the store. */
  predicate Removes(events: seq<Event>, effects: seq<Effect>, k: nat, n: string)
    requires k < |events| == |effects| && (events[k].from.Some? ==> events[k].from.value < k)
  {
    Evicts(events, effects, k, n) || (effects[k].pruned && n !in events[k].call.tables)
  }

  lemma VisitStep(services: Services, events: seq<Event>, results: seq<Embeddings>, effects: seq<Effect>,
                  k: nat, n: string)
    requires IsHistory(services, events, results) && AreEffects(events, effects) && k < |events|
    ensures n in PointsAfter(services, events, results, effects, k + 1) <==>
              || n in effects[k].written
              || (n in PointsAfter(services, events, results, effects, k) && !Removes(events, effects, k, n))
  {
    hide Reindexed;
    if events[k].from.Some? {
      RecordsItsTables(services, events, results, events[k].from.value);
    }
  }

  lemma RecordsItsTables(services: Services, events: seq<Event>, results: seq<Embeddings>, i: nat)
    requires IsHistory(services, events, results) && i < |events|
    ensures results[i].fingerprints.Keys == events[i].call.tables.Keys
  {
    hide Text, Fingerprint;
  }

  /** n was written at visit j and no later one of the first m visits took it out. */
  ghost predicate Lasts(events: seq<Event>, effects: seq<Effect>, j: nat, m: nat, n: string)
    requires j < m <= |events| == |effects|
    requires forall i | 0 <= i < |events| :: events[i].from.Some? ==> events[i].from.value < i
  {
    n in effects[j].written && forall k | j < k < m :: !Removes(events, effects, k, n)
  }

  ghost predicate Standing(events: seq<Event>, effects: seq<Effect>, m: nat, n: string)
    requires m <= |events| == |effects|
    requires forall i | 0 <= i < |events| :: events[i].from.Some? ==> events[i].from.value < i
  {
    exists j :: 0 <= j < m && Lasts(events, effects, j, m, n)
  }

  lemma StandingStep(events: seq<Event>, effects: seq<Effect>, k: nat, n: string)
    requires k < |events| == |effects|
    requires forall i | 0 <= i < |events| :: events[i].from.Some? ==> events[i].from.value < i
    ensures Standing(events, effects, k + 1, n) <==>
              n in effects[k].written || (Standing(events, effects, k, n) && !Removes(events, effects, k, n))
  {
    hide Removes;
    if n in effects[k].written {
      assert Lasts(events, effects, k, k + 1, n);
    }
    if Standing(events, effects, k, n) && !Removes(events, effects, k, n) {
      var j :| 0 <= j < k && Lasts(events, effects, j, k, n);
      assert Lasts(events, effects, j, k + 1, n);
    }
    if Standing(events, effects, k + 1, n) {
      var j :| 0 <= j < k + 1 && Lasts(events, effects, j, k + 1, n);
      assert j < k ==> Lasts(events, effects, j, k, n) && !Removes(events, effects, k, n);
    }
  }

  /** Over any history, of forced and unforced calls, lost and outdated results, deletions and prunes that fail: a
      table has a point exactly when some visit wrote it and none since took it out. */
  lemma {:induction false} PointIff(services: Services, events: seq<Event>, results: seq<Embeddings>,
                                    effects: seq<Effect>, m: nat, n: string)
    requires IsHistory(services, events, results) && AreEffects(events, effects) && m <= |events|
    ensures n in PointsAfter(services, events, results, effects, m) <==> Standing(events, effects, m, n)
  {
    hide Reindexed, StoreAfterVisit, Removes, Lasts;
    if m > 0 {
      hide PointsAfter, Standing;
      PointIff(services, events, results, effects, m - 1, n);
      VisitStep(services, events, results, effects, m - 1, n);
      StandingStep(events, effects, m - 1, n);
      assert n in PointsAfter(services, events, results, effects, m) <==> Standing(events, effects, m, n);
    }
  }

  /** Every visit but the first starts from the result of the one before, or from nothing. */
  predicate InStep(events: seq<Event>) {
    forall k | 0 < k < |events| :: events[k].from == None || events[k].from == Some(k - 1)
  }

  /** Visit k deletes nothing that is recorded: forced, without stored embeddings, or failing to. */
  predicate Lapses(events: seq<Event>, effects: seq<Effect>, k: nat)
    requires k < |events| == |effects|
  {
    events[k].call.force || events[k].from.None? || !effects[k].deleted
  }

  /** The visits from j up to m do not have the table and do not prune. */
  predicate Away(events: seq<Event>, effects: seq<Effect>, j: nat, m: nat, n: string)
    requires j <= m <= |events| == |effects|
  {
    forall k | j <= k < m :: n !in events[k].call.tables && !effects[k].pruned
  }

  /** n has a point although the last of the first m visits does not have the table. */
  ghost predicate Orphaned(services: Services, events: seq<Event>, results: seq<Embeddings>, effects: seq<Effect>,
                           m: nat, n: string)
    requires IsHistory(services, events, results) && AreEffects(events, effects) && 0 < m <= |events|
  {
    n in PointsAfter(services, events, results, effects, m) && n !in events[m - 1].call.tables
  }

  /** Visit j finds the point of n and lapses, and no visit from j up to m has the table or prunes. */
  ghost predicate Abandons(services: Services, events: seq<Event>, results: seq<Embeddings>, effects: seq<Effect>,
                           j: nat, m: nat, n: string)
    requires IsHistory(services, events, results) && AreEffects(events, effects) && j < m <= |events|
  {
    && n in PointsAfter(services, events, results, effects, j)
    && Lapses(events, effects, j) && Away(events, effects, j, m, n)
  }

  lemma AbandonsStep(services: Services, events: seq<Event>, results: seq<Embeddings>, effects: seq<Effect>,
                     j: nat, k: nat, n: string)
    requires IsHistory(services, events, results) && AreEffects(events, effects) && j <= k < |events|
    ensures Abandons(services, events, results, effects, j, k + 1, n) <==>
              && Away(events, effects, k, k + 1, n)
              && if j < k then Abandons(services, events, results, effects, j, k, n)
                 else n in PointsAfter(services, events, results, effects, k) && Lapses(events, effects, k)
  {
    hide Reindexed, StoredFor, PointsAfter, Lapses;
    assert Away(events, effects, k, k + 1, n) <==> n !in events[k].call.tables && !effects[k].pruned;
  }

  /** Some visit abandoned the point of n for good. */
  ghost predicate Abandoned(services: Services, events: seq<Event>, results: seq<Embeddings>, effects: seq<Effect>,
                            m: nat, n: string)
    requires IsHistory(services, events, results) && AreEffects(events, effects) && m <= |events|
  {
    exists j :: 0 <= j < m && Abandons(services, events, results, effects, j, m, n)
  }

  lemma AbandonedStep(services: Services, events: seq<Event>, results: seq<Embeddings>, effects: seq<Effect>,
                      k: nat, n: string)
    requires IsHistory(services, events, results) && AreEffects(events, effects) && k < |events|
    ensures Abandoned(services, events, results, effects, k + 1, n) <==>
              && Away(events, effects, k, k + 1, n)
              && (|| Abandoned(services, events, results, effects, k, n)
                  || (n in PointsAfter(services, events, results, effects, k) && Lapses(events, effects, k)))
  {
    hide Reindexed, StoredFor, PointsAfter, Lapses, Abandons, Away;
    AbandonsStep(services, events, results, effects, k, k, n);
    if Abandoned(services, events, results, effects, k + 1, n) {
      var j :| 0 <= j < k + 1 && Abandons(services, events, results, effects, j, k + 1, n);
      AbandonsStep(services, events, results, effects, j, k, n);
    }
    if Away(events, effects, k, k + 1, n) && Abandoned(services, events, results, effects, k, n) {
      var j :| 0 <= j < k && Abandons(services, events, results, effects, j, k, n);
      AbandonsStep(services, events, results, effects, j, k, n);
    }
  }

  lemma OrphanStep(services: Services, events: seq<Event>, results: seq<Embeddings>, effects: seq<Effect>,
                   k: nat, n: string)
    requires IsHistory(services, events, results) && AreEffects(events, effects) && InStep(events)
    requires 0 < k < |events|
    ensures Orphaned(services, events, results, effects, k + 1, n) <==>
              && Away(events, effects, k, k + 1, n)
              && (|| Orphaned(services, events, results, effects, k, n)
                  || (n in PointsAfter(services, events, results, effects, k) && Lapses(events, effects, k)))
  {
    hide Reindexed, StoredFor, PointsAfter;
    VisitStep(services, events, results, effects, k, n);
    assert Away(events, effects, k, k + 1, n) <==> n !in events[k].call.tables && !effects[k].pruned;
  }

  lemma NoneAtFirst(services: Services, events: seq<Event>, results: seq<Embeddings>, effects: seq<Effect>, n: string)
    requires IsHistory(services, events, results) && AreEffects(events, effects) && |events| > 0
    ensures !Orphaned(services, events, results, effects, 1, n)
    ensures PointsAfter(services, events, results, effects, 0) == {}
  {
    VisitStep(services, events, results, effects, 0, n);
  }

  /** A removed table has a point exactly when some visit without the table found it and lapsed, and from then on the
      table stays away and every prune fails: no later call deletes the point, forced or not. */
  lemma {:induction false} OrphanIff(services: Services, events: seq<Event>, results: seq<Embeddings>,
                                     effects: seq<Effect>, m: nat, n: string)
    requires IsHistory(services, events, results) && AreEffects(events, effects) && InStep(events)
    requires 0 < m <= |events|
    ensures Orphaned(services, events, results, effects, m, n) <==>
              Abandoned(services, events, results, effects, m, n)
  {
    hide Reindexed, StoredFor, InStep, Orphaned, Abandons, PointsAfter, Lapses, Away;
    AbandonedStep(services, events, results, effects, m - 1, n);
    if m == 1 {
      NoneAtFirst(services, events, results, effects, n);
    } else {
      OrphanIff(services, events, results, effects, m - 1, n);
      OrphanStep(services, events, results, effects, m - 1, n);
      hide Abandoned;
    }
  }

  /** When no visit after the first lapses, no removed table has a point, whether prunes work or not. */
  lemma NoOrphansUnforced(services: Services, events: seq<Event>, results: seq<Embeddings>, effects: seq<Effect>,
                          m: nat, n: string)
    requires IsHistory(services, events, results) && AreEffects(events, effects) && InStep(events)
    requires 0 < m <= |events| && forall k | 0 < k < m :: !Lapses(events, effects, k)
    ensures !Orphaned(services, events, results, effects, m, n)
  {
    hide Reindexed, StoredFor, Away;
    OrphanIff(services, events, results, effects, m, n);
    NoneAtFirst(services, events, results, effects, n);
  }

  /** Whatever the store holds, a visit leaves no orphan exactly when its prune works or it deletes every point of a
      table that is gone. */
  lemma NoOrphansIff(points: set<string>, stored: Option<Embeddings>, c: Call, e: Effect)
    requires e.written <= c.tables.Keys
    ensures StoreAfterVisit(points, stored, c, e) <= c.tables.Keys <==>
              e.pruned || points - c.tables.Keys <= Deleted(stored, c, e)
  {
    var left := points - Deleted(stored, c, e);
    assert left <= c.tables.Keys <==> points - c.tables.Keys <= Deleted(stored, c, e);
  }
}
