/** The relations of a schema, kept twice: as graph edges and as per-table foreign keys. Extraction, hiding,
    merging and disabling (backend/app/schema_manager.py), then pruning (backend/app/schema_pruner.py). */
module SchemaRelations {
  import opened Wrappers

  datatype Column = Column(name: string, kind: string, primaryKey: bool, nullable: bool)

  /** A column reference may be missing: SQLite reports none for a key on the other table's primary key. */
  datatype ForeignKey = ForeignKey(column: Option<string>, referencedTable: string, referencedColumn: Option<string>)

  datatype Table = Table(columns: seq<Column>, foreignKeys: seq<ForeignKey>)

  datatype Relation = Relation(source: string, sourceCol: Option<string>, target: string, targetCol: Option<string>)

  datatype Schema = Schema(tables: map<string, Table>, edges: seq<Relation>)

  function Key(r: Relation): ForeignKey {
    ForeignKey(r.sourceCol, r.target, r.targetCol)
  }

  function Edge(table: string, k: ForeignKey): Relation {
    Relation(table, k.column, k.referencedTable, k.referencedColumn)
  }

  function Flip(r: Relation): Relation {
    Relation(r.target, r.targetCol, r.source, r.sourceCol)
  }

  /** How often the tables list r as a foreign key. */
  function Listed(s: Schema, r: Relation): nat {
    if r.source in s.tables then multiset(s.tables[r.source].foreignKeys)[Key(r)] else 0
  }

  /** Both views hold the same multiset of relations. */
  ghost predicate ViewsAgree(s: Schema) {
    forall r :: multiset(s.edges)[r] == Listed(s, r)
  }

  /** How many more edges than foreign keys hold r. */
  function Surplus(s: Schema, r: Relation): int {
    multiset(s.edges)[r] - Listed(s, r)
  }

  lemma AgreeIff(s: Schema)
    ensures ViewsAgree(s) <==> forall r :: Surplus(s, r) == 0
  {
    if forall r :: Surplus(s, r) == 0 {
      forall r ensures multiset(s.edges)[r] == Listed(s, r) {
        assert Surplus(s, r) == 0;
      }
    }
  }

  ghost predicate SameSurplus(s: Schema, t: Schema) {
    forall r :: Surplus(t, r) == Surplus(s, r)
  }

  ghost predicate NoRepeats(s: Schema) {
    forall r :: multiset(s.edges)[r] <= 1
  }

  lemma Grown<T>(s: seq<T>, x: T)
    ensures multiset(s + [x]) == multiset(s) + multiset{x}
  {
  }

  lemma LastOf<T>(s: seq<T>)
    requires s != []
    ensures s == s[..|s| - 1] + [s[|s| - 1]]
    ensures multiset(s) == multiset(s[..|s| - 1]) + multiset{s[|s| - 1]}
  {
    Grown(s[..|s| - 1], s[|s| - 1]);
    assert s == s[..|s| - 1] + [s[|s| - 1]];
  }

  // ----- Extraction.

  /** What the database reports for one table. */
  datatype TableInfo = TableInfo(name: string, columns: seq<Column>, foreignKeys: seq<ForeignKey>)

  function EdgesOf(table: string, keys: seq<ForeignKey>): seq<Relation> {
    if keys == [] then [] else EdgesOf(table, keys[..|keys| - 1]) + [Edge(table, keys[|keys| - 1])]
  }

  function TablesIn(source: seq<TableInfo>): map<string, Table> {
    if source == [] then map[]
    else
      var t := source[|source| - 1];
      TablesIn(source[..|source| - 1])[t.name := Table(t.columns, t.foreignKeys)]
  }

  function EdgesIn(source: seq<TableInfo>): seq<Relation> {
    if source == [] then []
    else
      var t := source[|source| - 1];
      EdgesIn(source[..|source| - 1]) + EdgesOf(t.name, t.foreignKeys)
  }

  function Extracted(source: seq<TableInfo>): Schema {
    Schema(TablesIn(source), EdgesIn(source))
  }

  /** What is known of a table after at most two fetches: one for its columns, one for its keys. */
  function CutOff(info: TableInfo, fetches: nat): TableInfo {
    match fetches
    case 0 => TableInfo(info.name, [], [])
    case 1 => TableInfo(info.name, info.columns, [])
    case _ => info
  }

  /** What was read when the connection broke after so many fetches, the first of which lists the tables. */
  function ReadBy(source: seq<TableInfo>, fetches: nat): seq<TableInfo> {
    var whole := (fetches - 1) / 2;
    if fetches == 0 then []
    else if whole >= |source| then source
    else source[..whole] + [CutOff(source[whole], (fetches - 1) % 2)]
  }

  predicate DistinctNames(source: seq<TableInfo>) {
    forall i, j | 0 <= i < j < |source| :: source[i].name != source[j].name
  }

  lemma {:induction false} EdgesOfCount(table: string, keys: seq<ForeignKey>, r: Relation)
    ensures multiset(EdgesOf(table, keys))[r] == if r.source == table then multiset(keys)[Key(r)] else 0
  {
    if keys != [] {
      EdgesOfCount(table, keys[..|keys| - 1], r);
      LastOf(keys);
      Grown(EdgesOf(table, keys[..|keys| - 1]), Edge(table, keys[|keys| - 1]));
    }
  }

  lemma {:induction false} TablesInKeys(source: seq<TableInfo>, name: string)
    ensures name in TablesIn(source) <==> exists i :: 0 <= i < |source| && source[i].name == name
  {
    if source != [] {
      TablesInKeys(source[..|source| - 1], name);
      if i :| 0 <= i < |source| && source[i].name == name {
        assert i < |source| - 1 ==> source[..|source| - 1][i].name == name;
      }
    }
  }

  /** The views agree after extraction, however early it broke off. */
  lemma {:induction false} ExtractedAgree(source: seq<TableInfo>)
    requires DistinctNames(source)
    ensures ViewsAgree(Extracted(source))
  {
    if source != [] {
      var init, t := source[..|source| - 1], source[|source| - 1];
      ExtractedAgree(init);
      forall r ensures multiset(EdgesIn(source))[r] == Listed(Extracted(source), r) {
        EdgesOfCount(t.name, t.foreignKeys, r);
        assert multiset(EdgesIn(source)) == multiset(EdgesIn(init)) + multiset(EdgesOf(t.name, t.foreignKeys));
        assert multiset(EdgesIn(init))[r] == Listed(Extracted(init), r);
        TablesInKeys(init, r.source);
      }
    }
  }

  lemma ReadByDistinct(source: seq<TableInfo>, fetches: nat)
    requires DistinctNames(source)
    ensures DistinctNames(ReadBy(source, fetches))
  {
  }

  lemma ExtractedNext(source: seq<TableInfo>, i: nat, next: TableInfo)
    requires i < |source|
    ensures Extracted(source[..i] + [next]) ==
            Schema(TablesIn(source[..i])[next.name := Table(next.columns, next.foreignKeys)],
                   EdgesIn(source[..i]) + EdgesOf(next.name, next.foreignKeys))
  {
    assert (source[..i] + [next])[..i] == source[..i];
  }

  // ----- Keeping only some relations.

  function KeepEdges(keep: Relation -> bool, edges: seq<Relation>): seq<Relation> {
    if edges == [] then []
    else
      var init, r := KeepEdges(keep, edges[..|edges| - 1]), edges[|edges| - 1];
      if keep(r) then init + [r] else init
  }

  function KeepKeys(table: string, keep: Relation -> bool, keys: seq<ForeignKey>): seq<ForeignKey> {
    if keys == [] then []
    else
      var init, k := KeepKeys(table, keep, keys[..|keys| - 1]), keys[|keys| - 1];
      if keep(Edge(table, k)) then init + [k] else init
  }

  /** Some tables, and the relations that satisfy keep, in both views. */
  function Restrict(s: Schema, names: set<string>, keep: Relation -> bool): Schema {
    Schema(map t | t in s.tables && t in names ::
             s.tables[t].(foreignKeys := KeepKeys(t, keep, s.tables[t].foreignKeys)),
           KeepEdges(keep, s.edges))
  }

  lemma {:induction false} KeepEdgesCount(keep: Relation -> bool, edges: seq<Relation>, r: Relation)
    ensures multiset(KeepEdges(keep, edges))[r] == if keep(r) then multiset(edges)[r] else 0
  {
    if edges != [] {
      KeepEdgesCount(keep, edges[..|edges| - 1], r);
      LastOf(edges);
      Grown(KeepEdges(keep, edges[..|edges| - 1]), edges[|edges| - 1]);
    }
  }

  lemma {:induction false} KeepKeysCount(table: string, keep: Relation -> bool, keys: seq<ForeignKey>, k: ForeignKey)
    ensures multiset(KeepKeys(table, keep, keys))[k] == if keep(Edge(table, k)) then multiset(keys)[k] else 0
  {
    if keys != [] {
      KeepKeysCount(table, keep, keys[..|keys| - 1], k);
      LastOf(keys);
      Grown(KeepKeys(table, keep, keys[..|keys| - 1]), keys[|keys| - 1]);
    }
  }

  lemma {:induction false} KeepEdgesConcat(keep: Relation -> bool, a: seq<Relation>, b: seq<Relation>)
    ensures KeepEdges(keep, a + b) == KeepEdges(keep, a) + KeepEdges(keep, b)
  {
    if b == [] {
      assert a + b == a;
    } else {
      assert (a + b)[..|a + b| - 1] == a + b[..|b| - 1];
      KeepEdgesConcat(keep, a, b[..|b| - 1]);
    }
  }

  /** Restricting drops a relation from both views, but for an edge whose table goes while the edge stays. */
  lemma RestrictSurplus(s: Schema, names: set<string>, keep: Relation -> bool, r: Relation)
    ensures Surplus(Restrict(s, names, keep), r) ==
            if !keep(r) then 0 else if r.source in names then Surplus(s, r) else multiset(s.edges)[r]
  {
    KeepEdgesCount(keep, s.edges, r);
    if r.source in s.tables {
      KeepKeysCount(r.source, keep, s.tables[r.source].foreignKeys, Key(r));
      assert Edge(r.source, Key(r)) == r;
    }
  }

  lemma RestrictNoRepeats(s: Schema, names: set<string>, keep: Relation -> bool)
    requires NoRepeats(s)
    ensures NoRepeats(Restrict(s, names, keep))
  {
    forall r ensures multiset(KeepEdges(keep, s.edges))[r] <= 1 {
      KeepEdgesCount(keep, s.edges, r);
    }
  }

  lemma KeptIff(keep: Relation -> bool, edges: seq<Relation>, r: Relation)
    ensures r in KeepEdges(keep, edges) <==> r in edges && keep(r)
  {
    KeepEdgesCount(keep, edges, r);
    assert r in edges <==> multiset(edges)[r] > 0;
    assert r in KeepEdges(keep, edges) <==> multiset(KeepEdges(keep, edges))[r] > 0;
  }

  lemma KeptKeyIff(table: string, keep: Relation -> bool, keys: seq<ForeignKey>, k: ForeignKey)
    ensures k in KeepKeys(table, keep, keys) <==> k in keys && keep(Edge(table, k))
  {
    KeepKeysCount(table, keep, keys, k);
    assert k in keys <==> multiset(keys)[k] > 0;
    assert k in KeepKeys(table, keep, keys) <==> multiset(KeepKeys(table, keep, keys))[k] > 0;
  }

  // ----- Hiding tables and columns.

  function Shown(hidden: set<string>): Relation -> bool {
    (r: Relation) => r.source !in hidden && r.target !in hidden
  }

  function ShownColumns(hidden: set<string>, columns: seq<Column>): seq<Column> {
    if columns == [] then []
    else
      var init, c := ShownColumns(hidden, columns[..|columns| - 1]), columns[|columns| - 1];
      if c.name in hidden then init else init + [c]
  }

  function HideColumns(s: Schema, hidden: map<string, set<string>>): Schema {
    s.(tables := map t | t in s.tables ::
         if t in hidden then s.tables[t].(columns := ShownColumns(hidden[t], s.tables[t].columns)) else s.tables[t])
  }

  function Hidden(s: Schema, tables: set<string>, columns: map<string, set<string>>): Schema {
    HideColumns(Restrict(s, s.tables.Keys - tables, Shown(tables)), columns)
  }

  lemma HiddenAgree(s: Schema, tables: set<string>, columns: map<string, set<string>>)
    requires ViewsAgree(s)
    ensures ViewsAgree(Hidden(s, tables, columns))
  {
    var shown := Restrict(s, s.tables.Keys - tables, Shown(tables));
    var t := Hidden(s, tables, columns);
    forall r ensures multiset(t.edges)[r] == Listed(t, r) {
      RestrictSurplus(s, s.tables.Keys - tables, Shown(tables), r);
      assert multiset(s.edges)[r] == Listed(s, r);
      assert Listed(t, r) == Listed(shown, r);
    }
  }

  /** Relations may be filtered after the tables are deleted and the columns hidden. */
  lemma FiltersInTurn(s: Schema, tables: set<string>, columns: map<string, set<string>>)
    ensures var rest := HideColumns(s.(tables := s.tables - tables), columns);
            Restrict(rest, rest.tables.Keys, Shown(tables)) == Hidden(s, tables, columns)
  {
    hide KeepEdges, KeepKeys, ShownColumns, Shown;
  }

  /** The configured filters. Unreadable ones raise before anything is filtered. Broken ones raise after the columns of
      these tables, on an entry that lists no columns. */
  datatype Filters = Unreadable | Filters(tables: set<string>, columns: map<string, set<string>>, broken: bool)

  /** An exception keeps what is done by then: tables and some columns are gone, relations are not filtered. */
  function Filtered(s: Schema, f: Filters): Schema {
    match f
    case Unreadable => s
    case Filters(tables, columns, broken) =>
      if broken then HideColumns(s.(tables := s.tables - tables), columns) else Hidden(s, tables, columns)
  }

  /** The positions, in order, of the columns that are shown. */
  ghost predicate ShowsAt(hidden: set<string>, columns: seq<Column>, shown: seq<Column>, at: seq<nat>) {
    && |at| == |shown|
    && (forall k | 0 <= k < |at| :: at[k] < |columns| && shown[k] == columns[at[k]] && shown[k].name !in hidden)
    && (forall k, l | 0 <= k < l < |at| :: at[k] < at[l])
    && (forall i | 0 <= i < |columns| && columns[i].name !in hidden :: i in at)
  }

  lemma ShowsOneMore(hidden: set<string>, columns: seq<Column>, shown: seq<Column>, at: seq<nat>, c: Column)
    requires ShowsAt(hidden, columns, shown, at)
    ensures c.name in hidden ==> ShowsAt(hidden, columns + [c], shown, at)
    ensures c.name !in hidden ==> ShowsAt(hidden, columns + [c], shown + [c], at + [|columns|])
  {
    var all := at + [|columns|];
    assert all[|at|] == |columns|;
    forall i | 0 <= i < |columns| && columns[i].name !in hidden ensures i in at && i in all {
      assert (columns + [c])[i] == columns[i];
    }
  }

  /** Hiding columns leaves exactly the others, in order. */
  lemma {:induction false} ShownColumnsAre(hidden: set<string>, columns: seq<Column>) returns (at: seq<nat>)
    ensures ShowsAt(hidden, columns, ShownColumns(hidden, columns), at)
  {
    at := [];
    if columns != [] {
      var rest, c := columns[..|columns| - 1], columns[|columns| - 1];
      assert columns == rest + [c];
      at := ShownColumnsAre(hidden, rest);
      ShowsOneMore(hidden, rest, ShownColumns(hidden, rest), at, c);
      hide ShowsAt;
      at := if c.name in hidden then at else at + [|rest|];
    }
  }

  lemma {:induction false} ShownColumnsCount(hidden: set<string>, columns: seq<Column>, c: Column)
    ensures multiset(ShownColumns(hidden, columns))[c] == if c.name in hidden then 0 else multiset(columns)[c]
  {
    if columns != [] {
      ShownColumnsCount(hidden, columns[..|columns| - 1], c);
      LastOf(columns);
      Grown(ShownColumns(hidden, columns[..|columns| - 1]), columns[|columns| - 1]);
    }
  }

  /** The names of the columns hidden from a table. */
  function HiddenFrom(f: Filters, t: string): set<string> {
    if f.Filters? && t in f.columns then f.columns[t] else {}
  }

  /** What filters leave of the tables: those that are not hidden, each with all columns but the hidden ones, as often
      as before and in order. */
  lemma FilteredTables(s: Schema, f: Filters, t: string) returns (at: seq<nat>)
    ensures t in Filtered(s, f).tables <==> t in s.tables && !(f.Filters? && t in f.tables)
    ensures t in Filtered(s, f).tables ==>
              && ShowsAt(HiddenFrom(f, t), s.tables[t].columns, Filtered(s, f).tables[t].columns, at)
              && forall c :: multiset(Filtered(s, f).tables[t].columns)[c] ==
                   if c.name in HiddenFrom(f, t) then 0 else multiset(s.tables[t].columns)[c]
  {
    hide KeepKeys, KeepEdges, Shown, ShownColumns;
    at := [];
    if t in s.tables {
      var columns := s.tables[t].columns;
      at := ShownColumnsAre(HiddenFrom(f, t), columns);
      forall c ensures multiset(ShownColumns(HiddenFrom(f, t), columns))[c] ==
                         if c.name in HiddenFrom(f, t) then 0 else multiset(columns)[c]
      {
        ShownColumnsCount(HiddenFrom(f, t), columns, c);
      }
      NothingHidden(columns);
    }
  }

  lemma {:induction false} NothingHidden(columns: seq<Column>)
    ensures ShownColumns({}, columns) == columns
  {
    if columns != [] {
      NothingHidden(columns[..|columns| - 1]);
    }
  }

  /** What filters that do not break off leave of the relations, in both views: every relation between tables that are
      not hidden as often as before, and no other. */
  lemma FilteredRelations(s: Schema, f: Filters, r: Relation)
    requires f.Filters? && !f.broken
    ensures var shown := r.source !in f.tables && r.target !in f.tables;
            && multiset(Filtered(s, f).edges)[r] == (if shown then multiset(s.edges)[r] else 0)
            && Listed(Filtered(s, f), r) == (if shown then Listed(s, r) else 0)
  {
    KeepEdgesCount(Shown(f.tables), s.edges, r);
    if r.source in s.tables {
      KeepKeysCount(r.source, Shown(f.tables), s.tables[r.source].foreignKeys, Key(r));
      assert Edge(r.source, Key(r)) == r;
    }
  }

  /** Filters that cannot be read change nothing, and those that break off change no relation of a table they leave. */
  lemma BrokenFiltersLeave(s: Schema, f: Filters, r: Relation)
    requires f.Unreadable? || f.broken
    ensures f.Unreadable? ==> Filtered(s, f) == s
    ensures Filtered(s, f).edges == s.edges
    ensures Listed(Filtered(s, f), r) == if f.Filters? && r.source in f.tables then 0 else Listed(s, r)
  {
  }

  /** r is left as an edge of a table that filters deleted before they broke off. */
  predicate Dangling(s: Schema, f: Filters, r: Relation) {
    f.Filters? && f.broken && r.source in f.tables && r in s.edges
  }

  /** Filters leave the two views equal but for the edges they leave dangling. */
  lemma FilteredSurplus(s: Schema, f: Filters, r: Relation)
    requires ViewsAgree(s)
    ensures Surplus(Filtered(s, f), r) == if Dangling(s, f, r) then multiset(s.edges)[r] else 0
  {
    assert multiset(s.edges)[r] == Listed(s, r);
    if f.Filters? && !f.broken {
      HiddenAgree(s, f.tables, f.columns);
      assert multiset(Filtered(s, f).edges)[r] == Listed(Filtered(s, f), r);
    }
  }

  // ----- Merging in custom and implicit relations.

  function AddRelation(s: Schema, r: Relation): Schema
    requires r.source in s.tables
  {
    var t := s.tables[r.source];
    Schema(s.tables[r.source := t.(foreignKeys := t.foreignKeys + [Key(r)])], s.edges + [r])
  }

  predicate Between(s: Schema, r: Relation) {
    r.source in s.tables && r.target in s.tables
  }

  /** Custom relations between known tables, unless that directed relation is there already. */
  function WithCustom(s: Schema, custom: seq<Relation>): (t: Schema)
    ensures forall n :: n in t.tables <==> n in s.tables
  {
    if custom == [] then s
    else
      var init, r := WithCustom(s, custom[..|custom| - 1]), custom[|custom| - 1];
      if Between(s, r) && r !in init.edges then AddRelation(init, r) else init
  }

  /** Implicit relations whose pair is not there already, in either orientation. */
  function WithImplicit(s: Schema, implied: seq<Relation>): (t: Schema)
    requires forall r | r in implied :: Between(s, r)
    ensures forall n :: n in t.tables <==> n in s.tables
  {
    if implied == [] then s
    else
      var init, r := WithImplicit(s, implied[..|implied| - 1]), implied[|implied| - 1];
      assert r in implied && Between(s, r);
      if r !in init.edges && Flip(r) !in init.edges then AddRelation(init, r) else init
  }

  lemma AddListed(s: Schema, r: Relation, x: Relation)
    requires r.source in s.tables
    ensures Listed(AddRelation(s, r), x) == Listed(s, x) + if x == r then 1 else 0
  {
    Grown(s.tables[r.source].foreignKeys, Key(r));
  }

  lemma AddSurplus(s: Schema, r: Relation)
    requires r.source in s.tables
    ensures SameSurplus(s, AddRelation(s, r))
  {
    hide Listed;
    Grown(s.edges, r);
    forall x ensures Surplus(AddRelation(s, r), x) == Surplus(s, x) {
      AddListed(s, r, x);
    }
  }

  lemma AddNoRepeats(s: Schema, r: Relation)
    requires r.source in s.tables && NoRepeats(s) && r !in s.edges
    ensures NoRepeats(AddRelation(s, r))
  {
    Grown(s.edges, r);
    assert multiset(s.edges)[r] == 0;
  }

  lemma {:induction false} CustomIff(s: Schema, custom: seq<Relation>)
    ensures var t := WithCustom(s, custom);
            && s.edges <= t.edges && SameSurplus(s, t) && (NoRepeats(s) ==> NoRepeats(t))
            && forall r :: r in t.edges <==> r in s.edges || (r in custom && Between(s, r))
  {
    if custom != [] {
      var rest, last := custom[..|custom| - 1], custom[|custom| - 1];
      CustomIff(s, rest);
      LastOf(custom);
      var init := WithCustom(s, rest);
      if Between(s, last) && last !in init.edges {
        AddSurplus(init, last);
        if NoRepeats(s) { AddNoRepeats(init, last); }
      }
    }
  }

  /** r is the first of its unordered pair in the list. */
  ghost predicate FirstOfPair(implied: seq<Relation>, r: Relation) {
    exists i :: 0 <= i < |implied| && implied[i] == r && r !in implied[..i] && Flip(r) !in implied[..i]
  }

  lemma FirstOfPairGrows(rest: seq<Relation>, last: Relation, r: Relation)
    ensures FirstOfPair(rest + [last], r) <==>
            FirstOfPair(rest, r) || (r == last && r !in rest && Flip(r) !in rest)
  {
    var all := rest + [last];
    if FirstOfPair(all, r) {
      var i :| 0 <= i < |all| && all[i] == r && r !in all[..i] && Flip(r) !in all[..i];
      assert i < |rest| ==> all[..i] == rest[..i] && rest[i] == r;
      assert i == |rest| ==> all[..i] == rest;
    }
    if FirstOfPair(rest, r) {
      var i :| 0 <= i < |rest| && rest[i] == r && r !in rest[..i] && Flip(r) !in rest[..i];
      assert all[..i] == rest[..i] && all[i] == r;
    }
    if r == last && r !in rest && Flip(r) !in rest {
      assert all[..|rest|] == rest && all[|rest|] == r;
    }
  }

  lemma {:induction false} PairsBegin(implied: seq<Relation>, r: Relation)
    requires r in implied || Flip(r) in implied
    ensures FirstOfPair(implied, r) || FirstOfPair(implied, Flip(r))
  {
    var rest, last := implied[..|implied| - 1], implied[|implied| - 1];
    LastOf(implied);
    FirstOfPairGrows(rest, last, r);
    FirstOfPairGrows(rest, last, Flip(r));
    if r in rest || Flip(r) in rest {
      PairsBegin(rest, r);
    }
  }

  lemma {:induction false} ImplicitIff(s: Schema, implied: seq<Relation>)
    requires forall r | r in implied :: Between(s, r)
    ensures var t := WithImplicit(s, implied);
            && s.edges <= t.edges && SameSurplus(s, t) && (NoRepeats(s) ==> NoRepeats(t))
            && forall r :: r in t.edges <==>
                 r in s.edges || (FirstOfPair(implied, r) && Flip(r) !in s.edges)
  {
    if implied != [] {
      var rest, last := implied[..|implied| - 1], implied[|implied| - 1];
      ImplicitIff(s, rest);
      LastOf(implied);
      var init := WithImplicit(s, rest);
      var t := WithImplicit(s, implied);
      if last !in init.edges && Flip(last) !in init.edges {
        AddSurplus(init, last);
        if NoRepeats(s) { AddNoRepeats(init, last); }
      }
      forall r ensures r in t.edges <==> r in s.edges || (FirstOfPair(implied, r) && Flip(r) !in s.edges) {
        FirstOfPairGrows(rest, last, r);
        if r == last && (r in rest || Flip(r) in rest) {
          PairsBegin(rest, r);
        }
      }
    }
  }

  // ----- Disabling and pruning.

  function Enabled(disabled: seq<Relation>): Relation -> bool {
    (r: Relation) => r !in disabled && Flip(r) !in disabled
  }

  function Without(s: Schema, disabled: seq<Relation>): Schema {
    Restrict(s, s.tables.Keys, Enabled(disabled))
  }

  lemma WithoutSurplus(s: Schema, disabled: seq<Relation>, r: Relation)
    ensures Surplus(Without(s, disabled), r) == if Enabled(disabled)(r) then Surplus(s, r) else 0
  {
    RestrictSurplus(s, s.tables.Keys, Enabled(disabled), r);
  }

  function Inside(selected: set<string>): Relation -> bool {
    (r: Relation) => r.source in selected && r.target in selected
  }

  /** The sub-schema on the selected tables. */
  function Induced(s: Schema, selected: set<string>): Schema {
    Restrict(s, selected, Inside(selected))
  }

  // ----- The whole pipeline.

  /** The schema after merging and disabling, from the shown one. */
  function Loaded(shown: Schema, custom: seq<Relation>, implied: seq<Relation>, disabled: seq<Relation>): Schema
    requires forall r | r in implied :: Between(shown, r)
  {
    var merged := WithCustom(shown, custom);
    assert forall r | r in implied :: Between(shown, r) && Between(merged, r);
    Without(WithImplicit(merged, implied), disabled)
  }

  /** Edges and foreign keys hold the same multiset of relations after every stage, even from a broken-off extraction,
      unless the filters break off after deleting a table that relations start from. The edges this leaves dangling
      are all that ever tells the views apart: until they are disabled, and wherever they are inside the selection. */
  lemma ViewsAgreeThroughout(source: seq<TableInfo>, fetches: nat, f: Filters, custom: seq<Relation>,
                             implied: seq<Relation>, disabled: seq<Relation>, selected: set<string>)
    requires DistinctNames(source)
    requires forall r | r in implied :: Between(Filtered(Extracted(ReadBy(source, fetches)), f), r)
    ensures var extracted := Extracted(ReadBy(source, fetches));
            var shown := Filtered(extracted, f);
            var merged := WithCustom(shown, custom);
            var loaded := Loaded(shown, custom, implied, disabled);
            var dangling := set r | r in extracted.edges && Dangling(extracted, f, r);
            && ViewsAgree(extracted)
            && (ViewsAgree(shown) <==> dangling == {})
            && (ViewsAgree(merged) <==> dangling == {})
            && (ViewsAgree(WithImplicit(merged, implied)) <==> dangling == {})
            && (ViewsAgree(loaded) <==> forall r | r in dangling :: !Enabled(disabled)(r))
            && (ViewsAgree(Induced(loaded, selected)) <==>
                  forall r | r in dangling :: Enabled(disabled)(r) ==> !Inside(selected)(r))
  {
    hide Extracted, ReadBy, Filtered, ViewsAgree, NoRepeats, Restrict, Surplus, WithCustom, WithImplicit,
         Without, Enabled;
    var extracted := Extracted(ReadBy(source, fetches));
    ReadByDistinct(source, fetches);
    ExtractedAgree(ReadBy(source, fetches));
    var shown := Filtered(extracted, f);
    var merged := WithCustom(shown, custom);
    CustomIff(shown, custom);
    ImplicitIff(merged, implied);
    var all := WithImplicit(merged, implied);
    var loaded := Loaded(shown, custom, implied, disabled);
    var pruned := Induced(loaded, selected);
    var dangling := set r | r in extracted.edges && Dangling(extracted, f, r);
    forall r
      ensures (Surplus(shown, r) == 0 <==> r !in dangling) && (Surplus(merged, r) == 0 <==> r !in dangling)
      ensures Surplus(all, r) == 0 <==> r !in dangling
      ensures Surplus(loaded, r) == 0 <==> r !in dangling || !Enabled(disabled)(r)
      ensures Surplus(pruned, r) == 0 <==> r !in dangling || !Enabled(disabled)(r) || !Inside(selected)(r)
    {
      assert r in extracted.edges <==> multiset(extracted.edges)[r] > 0;
      FilteredSurplus(extracted, f, r);
      WithoutSurplus(all, disabled, r);
      RestrictSurplus(loaded, selected, Inside(selected), r);
    }
    AgreeIff(shown);
    AgreeIff(merged);
    AgreeIff(all);
    AgreeIff(loaded);
    AgreeIff(pruned);
  }

  /** Exactly which relations a loaded schema has. */
  lemma FinalRelations(shown: Schema, custom: seq<Relation>, implied: seq<Relation>, disabled: seq<Relation>,
                       r: Relation)
    requires forall r | r in implied :: Between(shown, r)
    ensures var asked := (x: Relation) => x in shown.edges || (x in custom && Between(shown, x));
            r in Loaded(shown, custom, implied, disabled).edges <==>
              && r !in disabled && Relation(r.target, r.targetCol, r.source, r.sourceCol) !in disabled
              && (asked(r) || (FirstOfPair(implied, r) && !asked(Flip(r))))
  {
    var merged := WithCustom(shown, custom);
    CustomIff(shown, custom);
    ImplicitIff(merged, implied);
    KeptIff(Enabled(disabled), WithImplicit(merged, implied).edges, r);
  }

  /** No directed relation is duplicated unless extraction duplicated it. */
  lemma LoadedNoRepeats(shown: Schema, custom: seq<Relation>, implied: seq<Relation>, disabled: seq<Relation>)
    requires forall r | r in implied :: Between(shown, r)
    requires NoRepeats(shown)
    ensures NoRepeats(Loaded(shown, custom, implied, disabled))
  {
    hide NoRepeats, ViewsAgree, Restrict;
    var merged := WithCustom(shown, custom);
    CustomIff(shown, custom);
    ImplicitIff(merged, implied);
    var all := WithImplicit(merged, implied);
    RestrictNoRepeats(all, all.tables.Keys, Enabled(disabled));
  }

  /** Extracted relations are lost only by disabling: what remains of them opens the list, in order. */
  lemma ExtractedSurvive(shown: Schema, custom: seq<Relation>, implied: seq<Relation>, disabled: seq<Relation>)
    requires forall r | r in implied :: Between(shown, r)
    ensures KeepEdges(Enabled(disabled), shown.edges) <= Loaded(shown, custom, implied, disabled).edges
  {
    hide ViewsAgree, NoRepeats;
    var merged := WithCustom(shown, custom);
    CustomIff(shown, custom);
    ImplicitIff(merged, implied);
    var all := WithImplicit(merged, implied).edges;
    assert all == shown.edges + all[|shown.edges|..];
    KeepEdgesConcat(Enabled(disabled), shown.edges, all[|shown.edges|..]);
  }

  /** Two columns are related in both directions exactly when both directions were extracted or asked for by hand:
      an implicit relation never doubles a pair. */
  lemma BothOrientationsIff(shown: Schema, custom: seq<Relation>, implied: seq<Relation>, disabled: seq<Relation>,
                            r: Relation)
    requires (forall r | r in implied :: Between(shown, r)) && r != Flip(r)
    ensures var asked := (x: Relation) => x in shown.edges || (x in custom && Between(shown, x));
            var edges := Loaded(shown, custom, implied, disabled).edges;
            r in edges && Flip(r) in edges <==>
              asked(r) && asked(Flip(r)) && r !in disabled && Flip(r) !in disabled
  {
    FinalRelations(shown, custom, implied, disabled, r);
    FinalRelations(shown, custom, implied, disabled, Flip(r));
    assert Flip(Flip(r)) == r;
  }

  /** The pruned schema is the induced sub-schema: every relation inside the selection as often as before and none
      other, every reference leading to a selected table, and columns untouched. */
  lemma PrunedIsInduced(s: Schema, selected: set<string>, r: Relation)
    ensures multiset(Induced(s, selected).edges)[r] ==
            if r.source in selected && r.target in selected then multiset(s.edges)[r] else 0
    ensures Induced(s, selected).tables.Keys == s.tables.Keys * selected
    ensures forall t :: t in Induced(s, selected).tables ==>
              Induced(s, selected).tables[t].columns == s.tables[t].columns
  {
    KeepEdgesCount(Inside(selected), s.edges, r);
  }

  /** Pruned references lead to selected tables, and all that did are still there. */
  lemma PrunedIsClosed(s: Schema, selected: set<string>, t: string, k: ForeignKey)
    requires t in s.tables && t in selected
    ensures k in Induced(s, selected).tables[t].foreignKeys <==>
            k in s.tables[t].foreignKeys && k.referencedTable in selected
  {
    KeptKeyIff(t, Inside(selected), s.tables[t].foreignKeys, k);
  }

  lemma {:induction false} KeepAll(table: string, keep: Relation -> bool, keys: seq<ForeignKey>)
    requires forall r :: keep(r)
    ensures KeepKeys(table, keep, keys) == keys
  {
    if keys != [] {
      KeepAll(table, keep, keys[..|keys| - 1]);
      LastOf(keys);
    }
  }

  lemma {:induction false} KeepAllEdges(keep: Relation -> bool, edges: seq<Relation>)
    requires forall r :: keep(r)
    ensures KeepEdges(keep, edges) == edges
  {
    if edges != [] {
      KeepAllEdges(keep, edges[..|edges| - 1]);
      LastOf(edges);
    }
  }

  lemma NothingDisabled(s: Schema)
    ensures Without(s, []) == s
  {
    KeepAllEdges(Enabled([]), s.edges);
    forall t | t in s.tables ensures KeepKeys(t, Enabled([]), s.tables[t].foreignKeys) == s.tables[t].foreignKeys {
      KeepAll(t, Enabled([]), s.tables[t].foreignKeys);
    }
  }

  // ----- The schema object the stages work on.

  class SchemaGraph {
    var tables: map<string, Table>
    var edges: seq<Relation>

    function State(): Schema
      reads this
    {
      Schema(tables, edges)
    }

    constructor ()
      ensures State() == Schema(map[], [])
    {
      tables, edges := map[], [];
    }

    /** Stops, keeping what it has, when the connection breaks after the given number of fetches. */
    method ExtractSqlite(source: seq<TableInfo>, fetches: nat)
      requires State() == Schema(map[], [])
      modifies this
      ensures State() == Extracted(ReadBy(source, fetches))
    {
      if fetches == 0 {
        return;
      }
      assert Extracted(source[..0]) == Schema(map[], []);
      hide TablesIn, EdgesIn, EdgesOf;
      var left := fetches - 1;
      var i := 0;
      while i < |source|
        invariant 0 <= i <= |source| && 0 <= left == fetches - 1 - 2 * i
        invariant State() == Extracted(source[..i])
      {
        var info := source[i];
        ExtractedNext(source, i, CutOff(info, left));
        left := ExtractTable(info, left);
        if left < 0 {
          assert ReadBy(source, fetches) == source[..i] + [CutOff(info, left + 2)];
          return;
        }
        assert source[..i + 1] == source[..i] + [info];
        i := i + 1;
      }
      assert source[..i] == source;
    }

    /** Leaves a table without keys, or without columns and keys, when the connection breaks on it. */
    method ExtractTable(info: TableInfo, fetches: nat) returns (left: int)
      modifies this
      ensures left == fetches - 2
      ensures var seen := CutOff(info, fetches);
              && tables == old(tables)[info.name := Table(seen.columns, seen.foreignKeys)]
              && edges == old(edges) + EdgesOf(info.name, seen.foreignKeys)
    {
      tables := tables[info.name := Table([], [])];
      left := fetches - 2;
      if fetches == 0 {
        return;
      }
      AppendColumns(info.name, info.columns);
      if fetches == 1 {
        return;
      }
      AppendKeys(info.name, info.foreignKeys);
    }

    method AppendColumns(table: string, columns: seq<Column>)
      requires table in tables && tables[table].columns == []
      modifies this`tables
      ensures tables == old(tables)[table := old(tables)[table].(columns := columns)]
    {
      var c := 0;
      while c < |columns|
        invariant 0 <= c <= |columns|
        invariant tables == old(tables)[table := old(tables)[table].(columns := columns[..c])]
      {
        tables := tables[table := tables[table].(columns := tables[table].columns + [columns[c]])];
        assert columns[..c + 1] == columns[..c] + [columns[c]];
        c := c + 1;
      }
      assert columns[..c] == columns;
    }

    /** Each key goes into the table and into the graph. */
    method AppendKeys(table: string, keys: seq<ForeignKey>)
      requires table in tables && tables[table].foreignKeys == []
      modifies this
      ensures tables == old(tables)[table := old(tables)[table].(foreignKeys := keys)]
      ensures edges == old(edges) + EdgesOf(table, keys)
    {
      var k := 0;
      while k < |keys|
        invariant 0 <= k <= |keys| && edges == old(edges) + EdgesOf(table, keys[..k])
        invariant tables == old(tables)[table := old(tables)[table].(foreignKeys := keys[..k])]
      {
        tables := tables[table := tables[table].(foreignKeys := tables[table].foreignKeys + [keys[k]])];
        edges := edges + [Edge(table, keys[k])];
        assert keys[..k + 1] == keys[..k] + [keys[k]];
        assert keys[..k + 1][..k] == keys[..k];
        k := k + 1;
      }
      assert keys[..k] == keys;
    }

    /** Hidden tables go with every relation at either end, hidden columns only from their table; an exception keeps
        what is done by then. */
    method ApplyFilters(f: Filters)
      modifies this
      ensures State() == Filtered(old(State()), f)
    {
      hide Restrict, HideColumns, Hidden, Shown;
      if f.Unreadable? {
        return;
      }
      DropTables(f.tables);
      DropColumns(f.columns);
      if f.broken {
        return;
      }
      FilterRelations(Shown(f.tables));
      FiltersInTurn(old(State()), f.tables, f.columns);
    }

    method FilterRelations(keep: Relation -> bool)
      modifies this
      ensures State() == Restrict(old(State()), old(State()).tables.Keys, keep)
    {
      FilterEdges(keep);
      FilterKeys(keep);
    }

    method DropTables(hidden: set<string>)
      modifies this`tables
      ensures tables == old(tables) - hidden
    {
      var todo := hidden;
      while todo != {}
        invariant todo <= hidden && tables == old(tables) - (hidden - todo)
      {
        var t :| t in todo;
        if t in tables {
          tables := tables - {t};
        }
        todo := todo - {t};
      }
      assert hidden - todo == hidden;
    }

    method DropColumns(columns: map<string, set<string>>)
      modifies this`tables
      ensures State() == HideColumns(old(State()), columns)
    {
      var todo := columns.Keys;
      while todo != {}
        invariant todo <= columns.Keys && tables.Keys == old(tables).Keys
        invariant forall t | t in tables :: tables[t] ==
                    if t in columns && t !in todo
                    then old(tables)[t].(columns := ShownColumns(columns[t], old(tables)[t].columns))
                    else old(tables)[t]
      {
        var t :| t in todo;
        if t in tables {
          tables := tables[t := tables[t].(columns := ShownColumns(columns[t], tables[t].columns))];
        }
        todo := todo - {t};
      }
    }

    method FilterEdges(keep: Relation -> bool)
      modifies this`edges
      ensures edges == KeepEdges(keep, old(edges))
    {
      var kept, i := [], 0;
      while i < |edges|
        invariant 0 <= i <= |edges| && edges == old(edges) && kept == KeepEdges(keep, edges[..i])
      {
        assert edges[..i + 1][..i] == edges[..i];
        if keep(edges[i]) {
          kept := kept + [edges[i]];
        }
        i := i + 1;
      }
      assert edges[..i] == edges;
      edges := kept;
    }

    method FilterKeys(keep: Relation -> bool)
      modifies this`tables
      ensures tables == map t | t in old(tables) ::
                old(tables)[t].(foreignKeys := KeepKeys(t, keep, old(tables)[t].foreignKeys))
    {
      var todo := tables.Keys;
      while todo != {}
        invariant todo <= tables.Keys == old(tables).Keys
        invariant forall t | t in tables :: tables[t] ==
                    if t in todo then old(tables)[t]
                    else old(tables)[t].(foreignKeys := KeepKeys(t, keep, old(tables)[t].foreignKeys))
      {
        var t :| t in todo;
        tables := tables[t := tables[t].(foreignKeys := KeepKeys(t, keep, tables[t].foreignKeys))];
        todo := todo - {t};
      }
    }

    method MergeCustom(custom: seq<Relation>)
      modifies this
      ensures State() == WithCustom(old(State()), custom)
    {
      var i := 0;
      while i < |custom|
        invariant 0 <= i <= |custom| && State() == WithCustom(old(State()), custom[..i])
      {
        assert custom[..i + 1][..i] == custom[..i];
        var r := custom[i];
        if r.source in tables && r.target in tables {
          if r !in edges {
            edges := edges + [r];
            tables := tables[r.source := tables[r.source].(foreignKeys := tables[r.source].foreignKeys + [Key(r)])];
          }
        }
        i := i + 1;
      }
      assert custom[..i] == custom;
    }

    /** Looks pairs up in a set that grows by both orientations of every relation added. */
    method MergeImplicit(implied: seq<Relation>)
      requires forall r | r in implied :: Between(State(), r)
      modifies this
      ensures State() == WithImplicit(old(State()), implied)
    {
      var existing := set e | e in edges;
      var i := 0;
      while i < |implied|
        invariant 0 <= i <= |implied|
        invariant forall r | r in implied[..i] :: Between(old(State()), r)
        invariant State() == WithImplicit(old(State()), implied[..i])
        invariant forall r :: r in edges ==> r in existing
        invariant forall r :: r in existing ==> r in edges || Flip(r) in edges
      {
        assert implied[..i + 1][..i] == implied[..i];
        var r := implied[i];
        assert r in implied && Flip(Flip(r)) == r;
        if r !in existing && Flip(r) !in existing {
          edges := edges + [r];
          existing := existing + {r, Flip(r)};
          tables := tables[r.source := tables[r.source].(foreignKeys := tables[r.source].foreignKeys + [Key(r)])];
        }
        i := i + 1;
      }
      assert implied[..i] == implied;
    }

    method RemoveDisabled(disabled: seq<Relation>)
      modifies this
      ensures State() == Without(old(State()), disabled)
    {
      if disabled != [] {
        FilterRelations(Enabled(disabled));
      } else {
        NothingDisabled(State());
      }
    }

    method BuildPruned(selected: set<string>) returns (pruned: Schema)
      ensures pruned == Induced(State(), selected)
    {
      var kept: map<string, Table> := map[];
      var todo := selected;
      while todo != {}
        invariant todo <= selected && kept.Keys == tables.Keys * (selected - todo)
        invariant forall t | t in kept :: kept[t] ==
                    tables[t].(foreignKeys := KeepKeys(t, Inside(selected), tables[t].foreignKeys))
      {
        var t :| t in todo;
        if t in tables {
          var keys, k := [], 0;
          while k < |tables[t].foreignKeys|
            invariant 0 <= k <= |tables[t].foreignKeys|
            invariant keys == KeepKeys(t, Inside(selected), tables[t].foreignKeys[..k])
          {
            assert tables[t].foreignKeys[..k + 1][..k] == tables[t].foreignKeys[..k];
            if tables[t].foreignKeys[k].referencedTable in selected {
              keys := keys + [tables[t].foreignKeys[k]];
            }
            k := k + 1;
          }
          assert tables[t].foreignKeys[..k] == tables[t].foreignKeys;
          kept := kept[t := Table(tables[t].columns, keys)];
        }
        todo := todo - {t};
      }
      assert kept == Induced(State(), selected).tables;
      var inside, i := [], 0;
      while i < |edges|
        invariant 0 <= i <= |edges| && inside == KeepEdges(Inside(selected), edges[..i])
      {
        assert edges[..i + 1][..i] == edges[..i];
        if edges[i].source in selected && edges[i].target in selected {
          inside := inside + [edges[i]];
        }
        i := i + 1;
      }
      assert edges[..i] == edges;
      pruned := Schema(kept, inside);
    }
  }
}
