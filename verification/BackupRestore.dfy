/** Restoring a backup archive over a live state, and undoing it with the safety backup
    (backend/app/backup/core.py). */
module BackupRestore {
  import opened Wrappers
  import opened BackupPaths
  import opened BackupArchive

  // ----- Writing members into a tree.

  predicate IsRestorableMember(m: Member) {
    IsSafeName(m.name)
  }

  /** The path a member is written to, below the root its first part names. */
  function Dest(m: Member): Path
    requires IsRestorableMember(m)
  {
    Parts(m.name)[1..]
  }

  /** A safe name never leads out of its root, and below no other root than the two there are. */
  lemma SafeNameStaysInside(m: Member)
    requires IsRestorableMember(m)
    ensures forall c | c in Dest(m) :: IsComponent(c)
    ensures m.name in ["manifest.json", "app.db", "trace.db"] || Parts(m.name)[0] in ["uploads", "qdrant"]
  {
    PartsAreComponents(m.name, "");
    forall c | c in Dest(m) ensures IsComponent(c) {
      assert c in Parts(m.name);
    }
    RootComesFirst("uploads", m.name);
    RootComesFirst("qdrant", m.name);
  }

  lemma RootComesFirst(root: string, name: string)
    requires root in ["uploads", "qdrant"]
    ensures StartsWith(name, root + "/") ==> Parts(name) != [] && Parts(name)[0] == root
  {
    if StartsWith(name, root + "/") {
      var rest := name[|root| + 1..];
      assert name == root + "/" + rest && "" + root == root;
      assert "uploads"[0] == 'u' && "qdrant"[0] == 'q';
      FirstPart(root, "", rest);
    }
  }

  /** Writes members in turn, up to the first that cannot be written. */
  function WriteAll(t: Tree, members: seq<Member>): (Tree, bool)
    requires forall m | m in members :: IsRestorableMember(m)
  {
    if members == [] then (t, true)
    else
      var last := members[|members| - 1];
      assert last in members;
      var (u, ok) := WriteAll(t, members[..|members| - 1]);
      if ok && CanWrite(u, Dest(last)) then (Write(u, Dest(last), last.data), true) else (u, false)
  }

  /** Whatever archive is extracted, its files end up below the root, in a proper tree. */
  lemma {:induction false} WriteAllWellFormed(t: Tree, members: seq<Member>)
    requires WellFormed(t) && forall m | m in members :: IsRestorableMember(m)
    ensures WellFormed(WriteAll(t, members).0)
  {
    hide IsRestorableMember, WellFormed, Dest;
    if members != [] {
      var rest, last := members[..|members| - 1], members[|members| - 1];
      assert last in members;
      WriteAllWellFormed(t, rest);
      SafeNameStaysInside(last);
      var (u, ok) := WriteAll(t, rest);
      if ok && CanWrite(u, Dest(last)) {
        WriteWellFormed(u, Dest(last), last.data);
      }
    }
  }

  /** want tells where each member goes and with what. */
  ghost predicate Delivers(members: seq<Member>, want: map<Path, Data>) {
    && (forall m | m in members :: IsRestorableMember(m) && Dest(m) in want && m.data == want[Dest(m)])
    && (forall p | p in want :: IsPath(p))
    && forall p, q | p in want && q in want :: q !in Above(p)
  }

  ghost predicate Written(members: seq<Member>, p: Path)
    requires forall m | m in members :: IsRestorableMember(m)
  {
    exists m :: m in members && Dest(m) == p
  }

  /** Members of one consistent tree can all be written exactly when each of them could be at the start; then they are
      there, and every other file is as it was. */
  lemma {:induction false} WriteAllIff(t: Tree, members: seq<Member>, want: map<Path, Data>)
    requires WellFormed(t) && Delivers(members, want)
    ensures var (u, ok) := WriteAll(t, members);
            && (ok <==> forall m | m in members :: CanWrite(t, Dest(m)))
            && WellFormed(u)
            && (ok ==> forall p | p in want && CanWrite(t, p) :: CanWrite(u, p))
            && (ok ==> forall p :: p in u.files <==> p in t.files || Written(members, p))
            && (ok ==> forall p | p in u.files :: u.files[p] == if Written(members, p) then want[p] else t.files[p])
            && t.dirs <= u.dirs && t.files.Keys <= u.files.Keys
  {
    hide IsSafeName, Parts, WellFormed;
    if members != [] {
      var rest, last := members[..|members| - 1], members[|members| - 1];
      assert last in members && members == rest + [last];
      WriteAllIff(t, rest, want);
      var (u, ok) := WriteAll(t, rest);
      if ok && CanWrite(u, Dest(last)) {
        var w := Write(u, Dest(last), last.data);
        WriteWellFormed(u, Dest(last), last.data);
        assert CanWrite(t, Dest(last));
        forall p | p in want && CanWrite(t, p) ensures CanWrite(w, p) {
          WriteKeepsWritable(u, Dest(last), last.data, p);
        }
        forall p ensures Written(members, p) <==> Written(rest, p) || p == Dest(last) {
        }
      } else if ok {
        assert !CanWrite(t, Dest(last));
      }
    }
  }

  /** t with some of the files of want written over it. */
  ghost predicate PartlyWritten(t: map<Path, Data>, want: map<Path, Data>, u: map<Path, Data>) {
    && t.Keys <= u.Keys
    && forall p | p in u :: (p in want && u[p] == want[p]) || (p in t && u[p] == t[p])
  }

  /** Stopped early or not, extraction adds or replaces files it was given and touches no other. */
  lemma {:induction false} WriteAllPartly(t: Tree, members: seq<Member>, want: map<Path, Data>)
    requires Delivers(members, want)
    ensures PartlyWritten(t.files, want, WriteAll(t, members).0.files)
  {
    hide IsSafeName, Parts;
    if members != [] {
      var rest, last := members[..|members| - 1], members[|members| - 1];
      assert last in members && members == rest + [last];
      WriteAllPartly(t, rest, want);
    }
  }

  predicate AllWritable(t: Tree, members: seq<Member>)
    requires forall m | m in members :: IsRestorableMember(m)
  {
    forall m | m in members :: CanWrite(t, Dest(m))
  }

  /** Every member before the first that cannot be written replaces a file. */
  predicate AddsNone(t: Tree, members: seq<Member>)
    requires forall m | m in members :: IsRestorableMember(m)
  {
    forall k | 0 <= k < |members| :: AllWritable(t, members[..k + 1]) ==> Dest(members[k]) in t.files
  }

  lemma AddsNoneEmpty(t: Tree)
    ensures AddsNone(t, [])
  {
  }

  lemma AddsNoneStep(t: Tree, rest: seq<Member>, last: Member)
    requires forall m | m in rest + [last] :: IsRestorableMember(m)
    requires forall m | m in rest :: IsRestorableMember(m)
    ensures AddsNone(t, rest + [last]) <==>
              AddsNone(t, rest) && (AllWritable(t, rest + [last]) ==> Dest(last) in t.files)
  {
    hide IsRestorableMember, AllWritable, Dest;
    var members := rest + [last];
    assert members[..|rest| + 1] == members && members[|rest|] == last;
    forall k | 0 <= k < |rest| ensures members[..k + 1] == rest[..k + 1] && members[k] == rest[k] {
    }
  }

  /** Stopped early or not, extraction adds no file exactly when all it reaches are there. */
  lemma {:induction false} WriteAllAdds(t: Tree, members: seq<Member>, want: map<Path, Data>)
    requires WellFormed(t) && Delivers(members, want)
    ensures WriteAll(t, members).0.files.Keys <= t.files.Keys <==> AddsNone(t, members)
  {
    hide IsSafeName, Parts, WellFormed, CanWrite, AddsNone;
    if members == [] {
      AddsNoneEmpty(t);
    } else {
      var rest, last := members[..|members| - 1], members[|members| - 1];
      assert last in members && members == rest + [last];
      WriteAllAdds(t, rest, want);
      WriteAllIff(t, rest, want);
      WriteAllIff(t, members, want);
      AddsNoneStep(t, rest, last);
    }
  }

  // ----- Restoring.

  function LastData(members: seq<Member>, name: string): Option<Data> {
    if members == [] then None
    else if members[|members| - 1].name == name then Some(members[|members| - 1].data)
    else LastData(members[..|members| - 1], name)
  }

  /** The members below a root, in archive order. */
  function Below(prefix: string, members: seq<Member>): (r: seq<Member>)
    ensures forall m :: m in r <==> m in members && StartsWith(m.name, prefix)
  {
    if members == [] then []
    else
      var init, last := Below(prefix, members[..|members| - 1]), members[|members| - 1];
      assert members == members[..|members| - 1] + [last];
      if StartsWith(last.name, prefix) then init + [last] else init
  }

  function OrElse(restored: Option<Data>, current: Option<Data>): Option<Data> {
    if restored.Some? then restored else current
  }

  const NO_TREE := Tree(map[], {})

  /** The state after extracting a verified archive, and whether it was extracted to the end: databases first, then
      uploads over what is there, then, when asked for and present, the Qdrant tree in place of the old one. */
  function Extracted(s: State, members: seq<Member>, includeQdrant: bool): (State, bool)
    requires forall m | m in members :: IsRestorableMember(m)
  {
    var (uploads, ok) := WriteAll(s.uploads, Below("uploads/", members));
    var dbs := s.(app := OrElse(LastData(members, "app.db"), s.app),
                  trace := OrElse(LastData(members, "trace.db"), s.trace),
                  uploads := uploads);
    if !ok || !includeQdrant || Below("qdrant/", members) == [] then (dbs, ok)
    else
      var (qdrant, done) := WriteAll(NO_TREE, Below("qdrant/", members));
      (dbs.(qdrant := qdrant), done)
  }

  datatype Outcome = Refused(errors: seq<VerifyError>) | Incompatible(database: string) | NotSaved | WriteFailed | Done

  /** latest is the newest schema version this release knows, by database. */
  predicate SupportedBy(manifest: Manifest, latest: map<string, nat>) {
    forall d | d in manifest.databases :: d in latest && manifest.databases[d] <= latest[d]
  }

  lemma SoundMembers(services: Services, a: Archive)
    requires Sound(services, a)
    ensures a.Archive? && forall m | m in a.members :: IsRestorableMember(m)
  {
    hide IsSafeName;
    forall m | m in a.members ensures IsRestorableMember(m) {
      assert MemberError(services, ReadManifest(services, a).value.files, m).None?;
    }
  }

  class Store {
    var app: Option<Data>
    var trace: Option<Data>
    var uploads: Tree
    var qdrant: Tree

    function Contents(): State
      reads this
    {
      State(app, trace, uploads, qdrant)
    }

    constructor (s: State)
      ensures Contents() == s
    {
      app, trace, uploads, qdrant := s.app, s.trace, s.uploads, s.qdrant;
    }

    method RestoreBackup(services: Services, latest: map<string, nat>, a: Archive, includeQdrant: bool,
                         safetyBackup: bool)
      returns (outcome: Outcome, safety: Option<Archive>)
      requires ValidState(Contents())
      modifies this
      ensures ValidState(Contents())
      ensures outcome.Refused? <==> !Sound(services, a)
      ensures outcome.Incompatible? <==> Sound(services, a) && !SupportedBy(ReadManifest(services, a).value, latest)
      ensures outcome.NotSaved? <==>
                && Sound(services, a) && SupportedBy(ReadManifest(services, a).value, latest)
                && safetyBackup && !Saveable(services, old(Contents()))
      ensures outcome.Refused? || outcome.Incompatible? || outcome.NotSaved? ==>
                Contents() == old(Contents()) && safety == None
      ensures outcome.Done? || outcome.WriteFailed? ==>
                && (forall m | m in a.members :: IsRestorableMember(m))
                && (Contents(), outcome.Done?) == Extracted(old(Contents()), a.members, includeQdrant)
                && (safety.Some? <==> safetyBackup)
                && (safety.Some? ==> ArchiveOf(services, old(Contents()), includeQdrant, safety.value))
    {
      hide Sound, IsSafeName, WellFormed, ArchiveOf, StartsWith, WriteAll;
      var ok, errors, manifest := VerifyBackup(services, a);
      safety := None;
      if !ok {
        return Refused(errors), None;
      }
      SoundMembers(services, a);
      SoundHasManifest(services, a);
      var databases := manifest.value.databases.Keys;
      while databases != {}
        invariant databases <= manifest.value.databases.Keys
        invariant forall d | d in manifest.value.databases.Keys - databases ::
                    d in latest && manifest.value.databases[d] <= latest[d]
      {
        var d :| d in databases;
        if d !in latest || manifest.value.databases[d] > latest[d] {
          return Incompatible(d), None;
        }
        databases := databases - {d};
      }
      if safetyBackup {
        safety := CreateBackup(services, Contents(), includeQdrant);
        if safety.None? {
          return NotSaved, None;
        }
      }
      WriteAllWellFormed(uploads, Below("uploads/", a.members));
      EmptyTree();
      WriteAllWellFormed(NO_TREE, Below("qdrant/", a.members));
      RestoreDatabases(a.members);
      var members := MembersBelow("uploads/", a.members);
      var done;
      uploads, done := ExtractTree(uploads, members);
      if !done {
        return WriteFailed, safety;
      }
      members := MembersBelow("qdrant/", a.members);
      if includeQdrant && members != [] {
        qdrant, done := ExtractTree(NO_TREE, members);
        if !done {
          return WriteFailed, safety;
        }
      }
      return Done, safety;
    }

    method RestoreDatabases(members: seq<Member>)
      modifies this`app, this`trace
      ensures app == OrElse(LastData(members, "app.db"), old(app))
      ensures trace == OrElse(LastData(members, "trace.db"), old(trace))
    {
      assert "app.db"[0] != "trace.db"[0];
      var i := 0;
      while i < |members|
        invariant 0 <= i <= |members|
        invariant app == OrElse(LastData(members[..i], "app.db"), old(app))
        invariant trace == OrElse(LastData(members[..i], "trace.db"), old(trace))
      {
        assert members[..i + 1][..i] == members[..i];
        if members[i].name == "app.db" {
          app := Some(members[i].data);
        } else if members[i].name == "trace.db" {
          trace := Some(members[i].data);
        }
        i := i + 1;
      }
      assert members[..i] == members;
    }
  }

  lemma EmptyTree()
    ensures WellFormed(NO_TREE)
  {
  }

  lemma SoundHasManifest(services: Services, a: Archive)
    requires Sound(services, a)
    ensures ReadManifest(services, a).Some?
  {
  }

  method MembersBelow(prefix: string, members: seq<Member>) returns (r: seq<Member>)
    ensures r == Below(prefix, members)
  {
    hide StartsWith;
    r := [];
    for i := 0 to |members|
      invariant r == Below(prefix, members[..i])
    {
      assert members[..i + 1][..i] == members[..i];
      if StartsWith(members[i].name, prefix) {
        r := r + [members[i]];
      }
    }
    assert members[..|members|] == members;
  }

  method ExtractTree(t: Tree, members: seq<Member>) returns (u: Tree, ok: bool)
    requires forall m | m in members :: IsRestorableMember(m)
    ensures (u, ok) == WriteAll(t, members)
  {
    hide IsRestorableMember, CanWrite, Dest, Write;
    u, ok := t, true;
    var i := 0;
    while i < |members|
      invariant 0 <= i <= |members| && ok
      invariant forall m | m in members[..i] :: IsRestorableMember(m)
      invariant (u, ok) == WriteAll(t, members[..i])
    {
      assert members[i] in members && members[..i + 1][..i] == members[..i];
      if !CanWrite(u, Dest(members[i])) {
        ok := false;
        StuckStaysStuck(t, members, i + 1);
        return;
      }
      u := Write(u, Dest(members[i]), members[i].data);
      i := i + 1;
    }
    assert members[..i] == members;
  }

  lemma {:induction false} StuckStaysStuck(t: Tree, members: seq<Member>, k: nat)
    requires k <= |members| && forall m | m in members :: IsRestorableMember(m)
    requires forall m | m in members[..k] :: IsRestorableMember(m)
    requires !WriteAll(t, members[..k]).1
    ensures WriteAll(t, members) == WriteAll(t, members[..k])
  {
    hide IsRestorableMember;
    if k == |members| {
      assert members[..k] == members;
    } else {
      var init := members[..|members| - 1];
      assert init[..k] == members[..k];
      StuckStaysStuck(t, init, k);
    }
  }

  // ----- Round trip and undo.

  lemma {:induction false} LastDataIs(members: seq<Member>, m: Member)
    requires m in members && forall x | x in members && x.name == m.name :: x == m
    ensures LastData(members, m.name) == Some(m.data)
  {
    var rest, last := members[..|members| - 1], members[|members| - 1];
    assert members == rest + [last];
    if last.name == m.name {
      assert last in members;
    } else {
      LastDataIs(rest, m);
    }
  }

  lemma {:induction false} LastDataNone(members: seq<Member>, name: string)
    requires forall x | x in members :: x.name != name
    ensures LastData(members, name) == None
  {
    if members != [] {
      assert members[|members| - 1] in members;
      LastDataNone(members[..|members| - 1], name);
    }
  }

  /** What a fresh archive holds under its fixed names and below its roots. */
  lemma FreshContents(services: Services, s: State, includeQdrant: bool, a: Archive)
    requires ValidState(s) && ArchiveOf(services, s, includeQdrant, a)
    ensures LastData(a.members, "app.db") == s.app && LastData(a.members, "trace.db") == s.trace
    ensures forall m :: m in Below("uploads/", a.members) <==> InTree("uploads", SavedUploads(s), m)
    ensures forall m :: m in Below("qdrant/", a.members) <==> InTree("qdrant", SavedQdrant(s, includeQdrant), m)
  {
    hide Saved, InTree, WellFormed, LastData, Below;
    assert "manifest.json"[0] == 'm' && "app.db"[0] == 'a' && "trace.db"[0] == 't';
    assert "uploads/"[0] == 'u' && "qdrant/"[0] == 'q';
    assert a.members == [a.members[0]] + a.members[1..] && a.members[0].name == "manifest.json";
    forall m | m in a.members
      ensures m.name == "app.db" <==> s.app.Some? && m == Member("app.db", true, s.app.value)
      ensures m.name == "trace.db" <==> s.trace.Some? && m == Member("trace.db", true, s.trace.value)
      ensures StartsWith(m.name, "uploads/") ==> InTree("uploads", SavedUploads(s), m)
      ensures StartsWith(m.name, "qdrant/") ==> InTree("qdrant", SavedQdrant(s, includeQdrant), m)
    {
      if m in a.members[1..] {
        SavedShape(s, includeQdrant, m);
      }
    }
    forall m | InTree("uploads", SavedUploads(s), m) ensures m in a.members && StartsWith(m.name, "uploads/") {
      TreeMembersAreSaved(s, includeQdrant, m);
      SavedShape(s, includeQdrant, m);
    }
    forall m | InTree("qdrant", SavedQdrant(s, includeQdrant), m)
      ensures m in a.members && StartsWith(m.name, "qdrant/")
    {
      TreeMembersAreSaved(s, includeQdrant, m);
      SavedShape(s, includeQdrant, m);
    }
    DatabaseIs(s.app, "app.db", s, includeQdrant, a.members);
    DatabaseIs(s.trace, "trace.db", s, includeQdrant, a.members);
  }

  lemma TreeMembersAreSaved(s: State, includeQdrant: bool, m: Member)
    requires InTree("uploads", SavedUploads(s), m) || InTree("qdrant", SavedQdrant(s, includeQdrant), m)
    ensures Saved(s, includeQdrant, m)
  {
  }

  lemma DatabaseIs(db: Option<Data>, name: string, s: State, includeQdrant: bool, members: seq<Member>)
    requires (name == "app.db" && db == s.app) || (name == "trace.db" && db == s.trace)
    requires forall m | Saved(s, includeQdrant, m) :: m in members
    requires forall m | m in members :: m.name == name <==> db.Some? && m == Member(name, true, db.value)
    ensures LastData(members, name) == db
  {
    if db.Some? {
      assert Saved(s, includeQdrant, Member(name, true, db.value));
      LastDataIs(members, Member(name, true, db.value));
    } else {
      LastDataNone(members, name);
    }
  }

  /** The members of a tree go back where they came from. */
  lemma TreeDelivers(root: string, t: Tree, files: map<Path, Data>, members: seq<Member>)
    requires root in ["uploads", "qdrant"] && WellFormed(t)
    requires forall p | p in files :: p in t.files && files[p] == t.files[p]
    requires forall m :: m in members <==> InTree(root, files, m)
    requires forall m | m in members :: IsRestorableMember(m)
    ensures Delivers(members, files)
    ensures forall p :: Written(members, p) <==> p in files
  {
    RootsAreComponents();
    hide IsSafeName, Parts, NameOf;
    forall m | m in members ensures Dest(m) in files && m.data == files[Dest(m)] {
      var p :| p in files && m == Member(NameOf(root, p), true, files[p]);
      PartsOfName(root, p);
    }
    forall p | p in files ensures Written(members, p) {
      var m := Member(NameOf(root, p), true, files[p]);
      assert InTree(root, files, m);
      PartsOfName(root, p);
      assert m in members && Dest(m) == p;
    }
    forall p, q | p in files && q in files ensures q !in Above(p) {
      FilesAreApart(t, p, q);
    }
  }

  /** A restore in terms of what was saved. */
  lemma RestoreGives(services: Services, s: State, savedQdrant: bool, a: Archive, cur: State, includeQdrant: bool)
    requires ValidState(s) && ValidState(cur) && RoundTrips(services)
    requires ArchiveOf(services, s, savedQdrant, a) && Restorable(services, s, savedQdrant)
    ensures forall m | m in a.members :: IsRestorableMember(m)
    ensures var (after, done) := Extracted(cur, a.members, includeQdrant);
            && (done <==> forall p | p in SavedUploads(s) :: CanWrite(cur.uploads, p))
            && after.app == OrElse(s.app, cur.app) && after.trace == OrElse(s.trace, cur.trace)
            && PartlyWritten(cur.uploads.files, SavedUploads(s), after.uploads.files)
            && (done ==> after.uploads.files == cur.uploads.files + SavedUploads(s))
            && after.qdrant.files == QdrantAfter(s, savedQdrant, cur, includeQdrant, done)
            && ValidState(after)
  {
    hide IsSafeName, ArchiveOf, Sound, WellFormed, CanWrite, Restorable, RoundTrips, WriteAll, InTree, Below, LastData,
         SavedUploads, SavedQdrant, PartlyWritten;
    FreshVerifiesIff(services, s, savedQdrant, a);
    SoundMembers(services, a);
    FreshContents(services, s, savedQdrant, a);
    UploadsRoundTrip(s, a.members, cur);
    TreeReplaced(s, savedQdrant, Below("qdrant/", a.members));
  }

  /** The Qdrant files left by a restore of s over cur. */
  function QdrantAfter(s: State, savedQdrant: bool, cur: State, includeQdrant: bool, done: bool): map<Path, Data> {
    if done && includeQdrant && SavedQdrant(s, savedQdrant) != map[] then SavedQdrant(s, savedQdrant)
    else cur.qdrant.files
  }

  /** Restoring the backup of a restorable s over cur: it runs to the end exactly when each upload, but for the probes
      of the readiness check, can be written, that is when it is no directory now and lies below no file. Then these
      have their old data back and all others are untouched, and a saved Qdrant tree that is asked for has replaced the
      current one. A restore that stops at an upload has already replaced both databases and perhaps some uploads, and
      leaves the Qdrant tree alone. */
  lemma RoundTrip(services: Services, s: State, savedQdrant: bool, a: Archive, cur: State, includeQdrant: bool)
    requires ValidState(s) && ValidState(cur) && RoundTrips(services)
    requires ArchiveOf(services, s, savedQdrant, a) && Restorable(services, s, savedQdrant)
    ensures forall p | p in s.uploads.files :: |p| > 0
    ensures forall m | m in a.members :: IsRestorableMember(m)
    ensures var (after, done) := Extracted(cur, a.members, includeQdrant);
            && ValidState(after)
            && (done <==> forall p | p in s.uploads.files :: ".ready_check_" <= p[|p| - 1] || CanWrite(cur.uploads, p))
            && after.app == (if s.app.Some? then s.app else cur.app)
            && after.trace == (if s.trace.Some? then s.trace else cur.trace)
            && (done ==> forall p :: p in after.uploads.files <==>
                  p in cur.uploads.files || (p in s.uploads.files && !(".ready_check_" <= p[|p| - 1])))
            && (forall p | p in cur.uploads.files && p !in s.uploads.files ::
                  p in after.uploads.files && after.uploads.files[p] == cur.uploads.files[p])
            && (forall p | p in s.uploads.files && !(".ready_check_" <= p[|p| - 1]) && done ::
                  p in after.uploads.files && after.uploads.files[p] == s.uploads.files[p])
            && (forall p | p in s.uploads.files && ".ready_check_" <= p[|p| - 1] && p in cur.uploads.files ::
                  p in after.uploads.files && after.uploads.files[p] == cur.uploads.files[p])
            && after.qdrant.files ==
                 (if done && savedQdrant && includeQdrant && s.qdrant.files != map[] then s.qdrant.files
                  else cur.qdrant.files)
  {
    hide IsSafeName, ArchiveOf, Sound, CanWrite, Restorable, RoundTrips, Extracted;
    RestoreGives(services, s, savedQdrant, a, cur, includeQdrant);
    SavedUploadIff(s);
    hide SavedUploads, WellFormed;
  }

  lemma SavedUploadIff(s: State)
    requires ValidState(s)
    ensures forall p | p in s.uploads.files :: |p| > 0 && (p in SavedUploads(s) <==> !(".ready_check_" <= p[|p| - 1]))
    ensures forall p | p in SavedUploads(s) :: p in s.uploads.files && SavedUploads(s)[p] == s.uploads.files[p]
  {
  }

  lemma UploadsRoundTrip(s: State, members: seq<Member>, cur: State)
    requires ValidState(s) && ValidState(cur)
    requires forall m | m in members :: IsRestorableMember(m)
    requires forall m :: m in Below("uploads/", members) <==> InTree("uploads", SavedUploads(s), m)
    ensures var (u, ok) := WriteAll(cur.uploads, Below("uploads/", members));
            && (ok <==> forall p | p in SavedUploads(s) :: CanWrite(cur.uploads, p))
            && PartlyWritten(cur.uploads.files, SavedUploads(s), u.files)
            && (ok ==> u.files == cur.uploads.files + SavedUploads(s)) && WellFormed(u)
  {
    hide IsSafeName, InTree, WellFormed, CanWrite, Below, PartlyWritten;
    var uploads := Below("uploads/", members);
    TreeDelivers("uploads", s.uploads, SavedUploads(s), uploads);
    WriteAllIff(cur.uploads, uploads, SavedUploads(s));
    WriteAllPartly(cur.uploads, uploads, SavedUploads(s));
    forall p | p in SavedUploads(s) ensures exists m :: m in uploads && Dest(m) == p {
      assert Written(uploads, p);
    }
  }

  /** The Qdrant tree is replaced as a whole. */
  lemma TreeReplaced(s: State, savedQdrant: bool, members: seq<Member>)
    requires ValidState(s) && forall m :: m in members <==> InTree("qdrant", SavedQdrant(s, savedQdrant), m)
    requires forall m | m in members :: IsRestorableMember(m)
    ensures WriteAll(NO_TREE, members).1 && WriteAll(NO_TREE, members).0.files == SavedQdrant(s, savedQdrant)
    ensures WellFormed(WriteAll(NO_TREE, members).0)
    ensures members == [] <==> SavedQdrant(s, savedQdrant) == map[]
  {
    hide IsSafeName, WriteAll, InTree;
    TreeDelivers("qdrant", s.qdrant, SavedQdrant(s, savedQdrant), members);
    WriteAllIff(NO_TREE, members, SavedQdrant(s, savedQdrant));
    if members != [] {
      assert members[0] in members && Written(members, Dest(members[0]));
    }
  }

  /** Undo. A restore over cur, finished or stopped at an upload, takes a safety backup of cur first. Restoring that
      always runs to the end and brings back both databases and every upload of cur. What the first restore added
      stays, so the uploads are exactly the old ones if and only if it added no file (UndoUploadsIff). The backups of
      other states than restorable ones do not verify (FreshVerifiesIff), so nothing is restored from them. */
  lemma Undo(services: Services, s: State, savedQdrant: bool, a: Archive, cur: State, safety: Archive,
             includeQdrant: bool, undoQdrant: bool)
    requires ValidState(s) && ValidState(cur) && RoundTrips(services)
    requires ArchiveOf(services, s, savedQdrant, a) && Restorable(services, s, savedQdrant)
    requires ArchiveOf(services, cur, includeQdrant, safety) && Restorable(services, cur, includeQdrant)
    ensures forall m | m in a.members :: IsRestorableMember(m)
    ensures forall m | m in safety.members :: IsRestorableMember(m)
    ensures var (after, restored) := Extracted(cur, a.members, includeQdrant);
            var (undone, done) := Extracted(after, safety.members, undoQdrant);
            && done
            && undone.app == OrElse(cur.app, s.app) && undone.trace == OrElse(cur.trace, s.trace)
            && undone.uploads.files == after.uploads.files + cur.uploads.files
            && (undone.uploads.files == cur.uploads.files <==> after.uploads.files.Keys <= cur.uploads.files.Keys)
            && (restored ==> undone.uploads.files == SavedUploads(s) + cur.uploads.files)
            && undone.qdrant.files ==
                 if includeQdrant && undoQdrant && cur.qdrant.files != map[] then cur.qdrant.files
                 else after.qdrant.files
  {
    hide IsSafeName, ArchiveOf, Sound, WellFormed, Extracted, CanWrite, Restorable, RoundTrips;
    FreshVerifiesIff(services, s, savedQdrant, a);
    FreshVerifiesIff(services, cur, includeQdrant, safety);
    SoundMembers(services, a);
    SoundMembers(services, safety);
    RestoreGives(services, s, savedQdrant, a, cur, includeQdrant);
    var (after, restored) := Extracted(cur, a.members, includeQdrant);
    forall p | p in SavedUploads(cur) ensures CanWrite(after.uploads, p) {
      FilesAreWritable(after.uploads, p);
    }
    RestoreGives(services, cur, includeQdrant, safety, after, undoQdrant);
    UndoneUploads(s, cur, after.uploads.files);
  }

  /** Unsaved uploads of cur are not touched by a restore, and saved ones come back. */
  lemma UndoneUploads(s: State, cur: State, after: map<Path, Data>)
    requires ValidState(s) && ValidState(cur) && PartlyWritten(cur.uploads.files, SavedUploads(s), after)
    ensures after + SavedUploads(cur) == after + cur.uploads.files
    ensures after == cur.uploads.files + SavedUploads(s) ==>
              after + cur.uploads.files == SavedUploads(s) + cur.uploads.files
    ensures after + cur.uploads.files == cur.uploads.files <==> after.Keys <= cur.uploads.files.Keys
  {
    hide WellFormed;
    forall p | p in cur.uploads.files && p !in SavedUploads(cur)
      ensures p in after && after[p] == cur.uploads.files[p]
    {
      assert p !in SavedUploads(s);
    }
    var both := after + cur.uploads.files;
    if both == cur.uploads.files {
      assert forall p | p in after :: p in both;
    }
  }

  /** What Undo leaves of the uploads, told beforehand: they are exactly the old ones if and only if every upload of
      the archive before the first that cannot be written is there already; all of them, when none fails. */
  lemma UndoUploadsIff(services: Services, s: State, savedQdrant: bool, a: Archive, cur: State, safety: Archive,
                       includeQdrant: bool, undoQdrant: bool)
    requires ValidState(s) && ValidState(cur) && RoundTrips(services)
    requires ArchiveOf(services, s, savedQdrant, a) && Restorable(services, s, savedQdrant)
    requires ArchiveOf(services, cur, includeQdrant, safety) && Restorable(services, cur, includeQdrant)
    ensures forall m | m in a.members :: IsRestorableMember(m)
    ensures forall m | m in safety.members :: IsRestorableMember(m)
    ensures var (after, restored) := Extracted(cur, a.members, includeQdrant);
            var undone := Extracted(after, safety.members, undoQdrant).0;
            && (undone.uploads.files == cur.uploads.files <==>
                  AddsNone(cur.uploads, Below("uploads/", a.members)))
            && (restored ==> (undone.uploads.files == cur.uploads.files <==>
                                SavedUploads(s).Keys <= cur.uploads.files.Keys))
  {
    hide IsSafeName, ArchiveOf, Sound, WellFormed, WriteAll, CanWrite, Restorable, RoundTrips, Below, InTree, AddsNone,
         LastData;
    Undo(services, s, savedQdrant, a, cur, safety, includeQdrant, undoQdrant);
    RestoreGives(services, s, savedQdrant, a, cur, includeQdrant);
    FreshVerifiesIff(services, s, savedQdrant, a);
    SoundMembers(services, a);
    FreshContents(services, s, savedQdrant, a);
    var uploads := Below("uploads/", a.members);
    TreeDelivers("uploads", s.uploads, SavedUploads(s), uploads);
    WriteAllAdds(cur.uploads, uploads, SavedUploads(s));
  }

  /** Undoing with the Qdrant tree brings its old files back if and only if there were any or the first restore
      replaced nothing; undoing without it, if and only if that restore replaced nothing or the same files. */
  lemma UndoQdrantIff(services: Services, s: State, savedQdrant: bool, a: Archive, cur: State, safety: Archive,
                      includeQdrant: bool, undoQdrant: bool)
    requires ValidState(s) && ValidState(cur) && RoundTrips(services)
    requires ArchiveOf(services, s, savedQdrant, a) && Restorable(services, s, savedQdrant)
    requires ArchiveOf(services, cur, includeQdrant, safety) && Restorable(services, cur, includeQdrant)
    ensures forall m | m in a.members :: IsRestorableMember(m)
    ensures forall m | m in safety.members :: IsRestorableMember(m)
    ensures var (after, restored) := Extracted(cur, a.members, includeQdrant);
            var undone := Extracted(after, safety.members, undoQdrant).0;
            var replaced := restored && includeQdrant && SavedQdrant(s, savedQdrant) != map[];
            undone.qdrant.files == cur.qdrant.files <==>
              !replaced || (if undoQdrant then cur.qdrant.files != map[]
                            else SavedQdrant(s, savedQdrant) == cur.qdrant.files)
  {
    hide IsSafeName, ArchiveOf, Sound, ValidState, Extracted, Restorable, RoundTrips, SavedQdrant;
    Undo(services, s, savedQdrant, a, cur, safety, includeQdrant, undoQdrant);
    RestoreGives(services, s, savedQdrant, a, cur, includeQdrant);
  }

  /** A backup taken and restored on the spot gives the same state, with the Qdrant tree or without: restorable
      contents with supported schema versions are never refused, and nothing changes but the list of directories. When
      no backup can be taken, nothing changes either. */
  method SaveAndRestore(services: Services, latest: map<string, nat>, store: Store, includeQdrant: bool)
    returns (outcome: Outcome)
    requires RoundTrips(services) && ValidState(store.Contents())
    requires Restorable(services, store.Contents(), includeQdrant)
    requires forall d | d in Versions(services, store.Contents()) ::
               d in latest && Versions(services, store.Contents())[d] <= latest[d]
    modifies store
    ensures outcome == if Saveable(services, old(store.Contents())) then Done else NotSaved
    ensures store.app == old(store.app) && store.trace == old(store.trace)
    ensures store.uploads.files == old(store.uploads.files) && store.qdrant.files == old(store.qdrant.files)
  {
    hide IsSafeName, ArchiveOf, Sound, WellFormed, CanWrite, Extracted, Restorable, Versions, Saveable;
    ghost var s := store.Contents();
    var a := CreateBackup(services, store.Contents(), includeQdrant);
    if a.None? {
      return NotSaved;
    }
    FreshVerifiesIff(services, s, includeQdrant, a.value);
    ManifestOfFresh(services, s, includeQdrant, a.value);
    SoundMembers(services, a.value);
    RestoreGives(services, s, includeQdrant, a.value, s, includeQdrant);
    forall p | p in SavedUploads(s) ensures CanWrite(s.uploads, p) {
      FilesAreWritable(s.uploads, p);
    }
    var safety;
    outcome, safety := store.RestoreBackup(services, latest, a.value, includeQdrant, false);
    assert s.uploads.files + SavedUploads(s) == s.uploads.files;
  }
}
